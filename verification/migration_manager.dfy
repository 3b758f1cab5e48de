/** Database migrations: a registry of versioned migrations, their order,
    the status against the migrations table, batches that stop at the first
    failure, rollback, and the integrity check of applied migrations.
    The database is the migrations table itself (a sequence of rows); whether
    a migration's own `up`/`down` code succeeds is a parameter. */
module MigrationManager {
  import opened Common
  import opened Sorting

  datatype Direction = Up | Down

  /** A migration. `upText` and `downText` stand for the source text of its
      `up` and `down` functions, which the checksum covers. */
  datatype Migration = Migration(version: string, name: string, upText: string, downText: string)

  /** A row of the migrations table. */
  datatype MigrationRecord = MigrationRecord(
    version: string,
    name: string,
    appliedAt: int,
    executionTimeMs: nat,
    checksum: Option<string>,
    direction: Direction)

  // ---------------------------------------------------------------------------
  // Checksum: a 32-bit polynomial string hash rendered in hexadecimal
  // ---------------------------------------------------------------------------

  const TwoTo32: int := 0x1_0000_0000
  const TwoTo31: int := 0x8000_0000

  /** JavaScript's ToInt32: the signed 32-bit integer congruent to `x` modulo 2^32. */
  function ToInt32(x: int): (r: int)
    ensures -TwoTo31 <= r < TwoTo31
    ensures (x - r) % TwoTo32 == 0
  {
    var m := x % TwoTo32;
    if m >= TwoTo31 then m - TwoTo32 else m
  }

  /** ToInt32 only depends on its argument modulo 2^32. */
  lemma ToInt32Congruent(x: int, y: int, k: int)
    requires x == y + k * TwoTo32
    ensures ToInt32(x) == ToInt32(y)
  {
    assert x % TwoTo32 == y % TwoTo32;
  }

  /** The reference hash: sum of the UTF-16 code units times powers of 31,
      the last unit with weight 1. */
  function PolyHash(units: seq<int>): int
    decreases |units|
  {
    if |units| == 0 then 0 else 31 * PolyHash(units[..|units| - 1]) + units[|units| - 1]
  }

  /** One step of the checksum loop: `hash = ((hash << 5) - hash) + char`
      followed by `hash = hash & hash`, on 32-bit integers. */
  function HashStep(hash: int, c: int): int {
    ToInt32(ToInt32(hash * 32) - hash + c)
  }

  /** The loop step is the reference hash's step, reduced to 32 bits. */
  lemma HashStepAgrees(p: int, c: int)
    ensures HashStep(ToInt32(p), c) == ToInt32(31 * p + c)
  {
    var h := ToInt32(p);
    var a := ToInt32(h * 32);
    var k1 := (p - h) / TwoTo32;
    assert p == h + k1 * TwoTo32;
    var k2 := (h * 32 - a) / TwoTo32;
    assert h * 32 == a + k2 * TwoTo32;
    assert 31 * p + c == (a - h + c) + (k2 + 31 * k1) * TwoTo32;
    ToInt32Congruent(31 * p + c, a - h + c, k2 + 31 * k1);
  }

  predicate IsHexDigit(c: char) {
    '0' <= c <= '9' || 'a' <= c <= 'f'
  }

  function HexDigit(d: nat): (c: char)
    requires d < 16
    ensures IsHexDigit(c)
  {
    "0123456789abcdef"[d]
  }

  function HexDigitValue(c: char): (d: nat)
    requires IsHexDigit(c)
    ensures d < 16
  {
    if c <= '9' then (c as int - '0' as int) as nat else (c as int - 'a' as int + 10) as nat
  }

  function HexValue(s: string): nat
    requires forall i :: 0 <= i < |s| ==> IsHexDigit(s[i])
    decreases |s|
  {
    if |s| == 0 then 0 else 16 * HexValue(s[..|s| - 1]) + HexDigitValue(s[|s| - 1])
  }

  /** `n.toString(16)`. */
  function HexString(n: nat): (r: string)
    ensures |r| >= 1
    ensures forall i :: 0 <= i < |r| ==> IsHexDigit(r[i])
    decreases n
  {
    if n < 16 then [HexDigit(n)] else HexString(n / 16) + [HexDigit(n % 16)]
  }

  /** The hexadecimal rendering loses nothing. */
  lemma {:induction false} HexStringRoundTrip(n: nat)
    ensures HexValue(HexString(n)) == n
    decreases n
  {
    if n >= 16 {
      HexStringRoundTrip(n / 16);
      var s := HexString(n);
      assert s[..|s| - 1] == HexString(n / 16);
    }
  }

  function Abs(x: int): nat {
    if x < 0 then -x else x
  }

  /** The text the checksum covers. */
  function ChecksumContent(m: Migration): string {
    m.version + ":" + m.name + ":" + m.upText + ":" + m.downText
  }

  /** The checksum of a migration, stated through the reference hash. */
  function Checksum(m: Migration): (r: string)
    ensures |r| >= 1 && forall i :: 0 <= i < |r| ==> IsHexDigit(r[i])
  {
    HexString(Abs(ToInt32(PolyHash(Utf16(ChecksumContent(m))))))
  }

  /** `generateChecksum`: the loop over the UTF-16 code units computes the
      reference hash reduced to 32 bits. */
  method GenerateChecksum(m: Migration) returns (checksum: string)
    ensures checksum == Checksum(m)
    ensures HexValue(checksum) <= TwoTo31
  {
    var content := Utf16(ChecksumContent(m));
    var hash := 0;
    var i := 0;
    while i < |content|
      invariant 0 <= i <= |content|
      invariant hash == ToInt32(PolyHash(content[..i]))
    {
      assert content[..i + 1][..i] == content[..i];
      HashStepAgrees(PolyHash(content[..i]), content[i]);
      hash := ToInt32(hash * 32) - hash + content[i];
      hash := ToInt32(hash);
      i := i + 1;
    }
    assert content[..i] == content;
    checksum := HexString(Abs(hash));
    HexStringRoundTrip(Abs(hash));
  }

  // ---------------------------------------------------------------------------
  // Version order
  // ---------------------------------------------------------------------------

  /** JavaScript's `parseInt(s, 10)`: leading white space, an optional sign,
      then the longest run of decimal digits; `None` (NaN) when there is no digit. */
  function ParseInt(s: string): (r: Option<int>)
    ensures r.None? <==>
              var a := SkipFrom(s, IsJsWhitespace, 0);
              var b := if a < |s| && (s[a] == '-' || s[a] == '+') then a + 1 else a;
              b == |s| || !IsDigit(s[b])
  {
    var a := SkipFrom(s, IsJsWhitespace, 0);
    var negative := a < |s| && s[a] == '-';
    var b := if a < |s| && (s[a] == '-' || s[a] == '+') then a + 1 else a;
    var e := SkipFrom(s, IsDigit, b);
    if e == b then None
    else
      var v: int := DigitsValue(s[b..e]);
      Some(if negative then -v else v)
  }

  /** A version that begins with digits parses to their value, whatever follows
      the digits ("001_init" is 1). */
  lemma ParseIntDigitPrefix(digits: string, rest: string)
    requires |digits| > 0 && forall i :: 0 <= i < |digits| ==> IsDigit(digits[i])
    requires |rest| > 0 ==> !IsDigit(rest[0])
    ensures ParseInt(digits + rest) == Some(DigitsValue(digits))
  {
    var s := digits + rest;
    assert !IsJsWhitespace(s[0]) && s[0] != '-' && s[0] != '+';
    assert SkipFrom(s, IsJsWhitespace, 0) == 0;
    var e := SkipFrom(s, IsDigit, 0);
    assert forall j :: 0 <= j < |digits| ==> s[j] == digits[j];
    assert |rest| > 0 ==> s[|digits|] == rest[0];
    assert e == |digits|;
    assert s[0..e] == digits;
  }

  /** Parsing a rendered number gives it back. */
  lemma ParseIntOfRendering(n: nat)
    ensures ParseInt(NatToString(n)) == Some(n)
  {
    ParseIntDigitPrefix(NatToString(n), "");
    assert NatToString(n) + "" == NatToString(n);
    NatToStringRoundTrip(n);
  }

  /** The sort comparator: numeric when both versions parse as integers,
      otherwise string order ("may precede" form of `numA - numB` and
      `localeCompare`). */
  predicate VersionLe(a: Migration, b: Migration) {
    var na := ParseInt(a.version);
    var nb := ParseInt(b.version);
    if na.Some? && nb.Some? then na.value <= nb.value else StrLessEq(a.version, b.version)
  }

  function NumericKeyLe(a: Migration, b: Migration): bool {
    ParseInt(a.version).GetOr(0) <= ParseInt(b.version).GetOr(0)
  }

  predicate StringKeyLe(a: Migration, b: Migration) {
    StrLessEq(a.version, b.version)
  }

  /** `sortMigrations`: a reordering of the migrations by version. */
  function SortMigrations(ms: seq<Migration>): (r: seq<Migration>)
    ensures multiset(r) == multiset(ms)
  {
    SortBy(ms, VersionLe)
  }

  /** When every version is numeric, the order is by numeric value. */
  lemma SortMigrationsNumeric(ms: seq<Migration>)
    requires forall m :: m in ms ==> ParseInt(m.version).Some?
    ensures SortedBy(SortMigrations(ms), NumericKeyLe)
  {
    SortBySorted(ms, VersionLe, NumericKeyLe);
  }

  /** When no version is numeric, the order is string order. */
  lemma SortMigrationsByString(ms: seq<Migration>)
    requires forall m :: m in ms ==> ParseInt(m.version).None?
    ensures SortedBy(SortMigrations(ms), StringKeyLe)
  {
    forall a, b, c | a in ms && b in ms && c in ms {
      StrLessEqTotalOrder(a.version, b.version, c.version);
    }
    SortBySorted(ms, VersionLe, StringKeyLe);
  }

  // ---------------------------------------------------------------------------
  // Registry
  // ---------------------------------------------------------------------------

  /** The registry in registration order; the source keeps it in a `Map`
      keyed by version, which remembers insertion order. */
  type Registry = seq<Migration>

  predicate IsRegistered(reg: Registry, version: string) {
    exists m :: m in reg && m.version == version
  }

  predicate DistinctVersions(reg: Registry) {
    forall i, j :: 0 <= i < j < |reg| ==> reg[i].version != reg[j].version
  }

  /** `migrations.get(version)`. */
  function Lookup(reg: Registry, version: string): (r: Option<Migration>)
    ensures r.Some? <==> IsRegistered(reg, version)
    ensures r.Some? ==> r.value in reg && r.value.version == version
    decreases |reg|
  {
    if |reg| == 0 then None
    else if reg[0].version == version then Some(reg[0])
    else
      var r := Lookup(reg[1..], version);
      assert forall m :: m in reg[1..] ==> m in reg;
      assert IsRegistered(reg, version) ==> IsRegistered(reg[1..], version) by {
        if IsRegistered(reg, version) {
          var m :| m in reg && m.version == version;
          assert m != reg[0];
        }
      }
      r
  }

  /** `register`: adds a migration whose version is new, and refuses a
      duplicate version. */
  function Register(reg: Registry, m: Migration): (r: Result<Registry, string>)
    ensures r.Err? <==> IsRegistered(reg, m.version)
    ensures r.Ok? ==> r.value == reg + [m]
    ensures r.Ok? && DistinctVersions(reg) ==> DistinctVersions(r.value)
  {
    if IsRegistered(reg, m.version) then
      Err("Migration " + m.version + " is already registered")
    else
      assert forall i :: 0 <= i < |reg| ==> reg[i] in reg;
      Ok(reg + [m])
  }

  /** `registerAll`: registers in order and stops at the first duplicate;
      the migrations registered before it stay registered. */
  function RegisterAll(reg: Registry, ms: seq<Migration>): (r: (Registry, Option<string>))
    ensures |reg| <= |r.0| <= |reg| + |ms| && r.0[..|reg|] == reg
    ensures r.1.None? ==> r.0 == reg + ms
    ensures DistinctVersions(reg) ==> DistinctVersions(r.0)
    decreases |ms|
  {
    if |ms| == 0 then (reg, None)
    else
      match Register(reg, ms[0])
      case Err(e) => (reg, Some(e))
      case Ok(reg1) =>
        var r := RegisterAll(reg1, ms[1..]);
        assert reg1 + ms[1..] == reg + ms;
        assert r.0[..|reg|] == r.0[..|reg1|][..|reg|];
        r
  }

  /** Registering a batch of distinct new versions registers all of them. */
  lemma {:induction false} RegisterAllFresh(reg: Registry, ms: seq<Migration>)
    requires forall m :: m in ms ==> !IsRegistered(reg, m.version)
    requires DistinctVersions(ms)
    ensures RegisterAll(reg, ms).1.None?
    decreases |ms|
  {
    if |ms| > 0 {
      assert ms[0] in ms;
      var reg1 := reg + [ms[0]];
      forall m | m in ms[1..] ensures !IsRegistered(reg1, m.version) {
        var k :| 0 <= k < |ms[1..]| && ms[1..][k] == m;
        assert ms[k + 1] == m && m in ms;
      }
      forall i, j | 0 <= i < j < |ms[1..]| ensures ms[1..][i].version != ms[1..][j].version {
        assert ms[1..][i] == ms[i + 1] && ms[1..][j] == ms[j + 1];
      }
      RegisterAllFresh(reg1, ms[1..]);
    }
  }

  /** `getMigrations`: the registered migrations in version order. */
  function GetMigrations(reg: Registry): (r: seq<Migration>)
    ensures multiset(r) == multiset(reg)
  {
    SortMigrations(reg)
  }

  // ---------------------------------------------------------------------------
  // Status
  // ---------------------------------------------------------------------------

  /** The migrations table: one row per applied version. */
  type Table = seq<MigrationRecord>

  predicate IsApplied(table: Table, version: string) {
    exists x :: x in table && x.version == version
  }

  predicate RecordVersionLe(a: MigrationRecord, b: MigrationRecord) {
    StrLessEq(a.version, b.version)
  }

  function IsUpRecord(): MigrationRecord -> bool {
    (x: MigrationRecord) => x.direction == Up
  }

  function IsDownRecord(): MigrationRecord -> bool {
    (x: MigrationRecord) => x.direction == Down
  }

  /** `getAppliedMigrations`: the rows, in ascending string order of version
      (`ORDER BY version ASC` on a text column). */
  function GetAppliedMigrations(table: Table): (r: seq<MigrationRecord>)
    ensures multiset(r) == multiset(table)
    ensures SortedBy(r, RecordVersionLe)
  {
    forall a, b, c | a in table && b in table && c in table {
      StrLessEqTotalOrder(a.version, b.version, c.version);
    }
    SortBySortedSelf(table, RecordVersionLe);
    SortBy(table, RecordVersionLe)
  }

  datatype StatusReport = StatusReport(
    applied: seq<MigrationRecord>,
    pending: seq<Migration>,
    failed: seq<MigrationRecord>,
    currentVersion: Option<string>,
    upToDate: bool)

  function NotAppliedIn(table: Table): Migration -> bool {
    (m: Migration) => !IsApplied(table, m.version)
  }

  /** The last row of a list in string order of version has the greatest version. */
  lemma LastIsGreatest(s: seq<MigrationRecord>)
    requires SortedBy(s, RecordVersionLe) && |s| > 0
    ensures forall x :: x in s ==> StrLessEq(x.version, s[|s| - 1].version)
  {
    forall x | x in s ensures StrLessEq(x.version, s[|s| - 1].version) {
      var k :| 0 <= k < |s| && s[k] == x;
      if k < |s| - 1 {
        assert RecordVersionLe(s[k], s[|s| - 1]);
      }
    }
  }

  /** The applied (upward) rows, in string order of version. */
  function UpRecords(table: Table): (r: seq<MigrationRecord>)
    ensures forall x :: x in r <==> x in table && x.direction == Up
    ensures SortedBy(r, RecordVersionLe)
  {
    var records := GetAppliedMigrations(table);
    SameElements(records, table);
    FilterSorted(records, IsUpRecord(), RecordVersionLe);
    Filter(records, IsUpRecord())
  }

  /** The rows of rolled-back migrations. */
  function DownRecords(table: Table): (r: seq<MigrationRecord>)
    ensures forall x :: x in r <==> x in table && x.direction == Down
  {
    var records := GetAppliedMigrations(table);
    SameElements(records, table);
    Filter(records, IsDownRecord())
  }

  /** The registered migrations without a row, in version order. */
  function Pending(reg: Registry, table: Table): (r: seq<Migration>)
    ensures forall m :: m in r <==> m in reg && !IsApplied(table, m.version)
  {
    var all := GetMigrations(reg);
    SameElements(all, reg);
    Filter(all, NotAppliedIn(table))
  }

  /** The current version: the last applied row's version, which is the
      greatest applied version in string order. */
  function CurrentVersion(table: Table): (r: Option<string>)
    ensures r.None? <==> forall x :: x in table ==> x.direction != Up
    ensures r.Some? ==>
              (exists x :: x in table && x.direction == Up && x.version == r.value)
              && forall x :: x in table && x.direction == Up ==> StrLessEq(x.version, r.value)
  {
    var applied := UpRecords(table);
    if |applied| > 0 then
      var last := applied[|applied| - 1];
      assert last in applied;
      LastIsGreatest(applied);
      Some(last.version)
    else
      None
  }

  /** `getStatus`. */
  function GetStatus(reg: Registry, table: Table): (r: StatusReport)
    ensures forall m :: m in r.pending <==> m in reg && !IsApplied(table, m.version)
    ensures forall x :: x in r.applied <==> x in table && x.direction == Up
    ensures forall x :: x in r.failed <==> x in table && x.direction == Down
    ensures r.upToDate <==> forall m :: m in reg ==> IsApplied(table, m.version)
    ensures r.currentVersion == CurrentVersion(table)
    ensures SortedBy(r.applied, RecordVersionLe)
  {
    var pending := Pending(reg, table);
    assert |pending| > 0 ==> pending[0] in pending;
    StatusReport(UpRecords(table), pending, DownRecords(table), CurrentVersion(table), |pending| == 0)
  }

  // ---------------------------------------------------------------------------
  // Running migrations
  // ---------------------------------------------------------------------------

  /** Outcome of one migration; the error object and timing are reduced to
      `success` and the elapsed time supplied by the caller. */
  datatype RunResult = RunResult(version: string, name: string, direction: Direction, success: bool, executionTimeMs: nat)

  /** The environment of a run: dry-run mode, whether a migration's own code
      succeeds in a direction, and the clock. */
  datatype RunEnv = RunEnv(dryRun: bool, codeSucceeds: (Migration, Direction) -> bool, now: int, elapsedMs: nat)

  /** `runSingleMigration`. In dry-run mode nothing is touched and the run
      succeeds. Otherwise the migration's code and the table update run in one
      transaction: an upward run inserts a row (the version is the table's
      primary key, so a version that already has a row fails), a downward run
      deletes the version's rows; a failed transaction leaves the table as it was. */
  function RunSingle(m: Migration, direction: Direction, table: Table, env: RunEnv): (r: (RunResult, Table))
    ensures r.0.version == m.version && r.0.name == m.name && r.0.direction == direction
    ensures env.dryRun ==> r.0.success && r.1 == table
    ensures !r.0.success ==> r.1 == table
    ensures !env.dryRun && direction == Up ==>
              (r.0.success <==> env.codeSucceeds(m, Up) && !IsApplied(table, m.version))
    ensures !env.dryRun && direction == Down ==> (r.0.success <==> env.codeSucceeds(m, Down))
    ensures r.0.success && !env.dryRun && direction == Up ==>
              r.1 == table + [MigrationRecord(m.version, m.name, env.now, env.elapsedMs, Some(Checksum(m)), Up)]
    ensures r.0.success && !env.dryRun && direction == Down ==>
              forall x :: x in r.1 <==> x in table && x.version != m.version
  {
    if env.dryRun then
      (RunResult(m.version, m.name, direction, true, 0), table)
    else
      var ok := env.codeSucceeds(m, direction) && (direction == Down || !IsApplied(table, m.version));
      if !ok then
        (RunResult(m.version, m.name, direction, false, env.elapsedMs), table)
      else if direction == Up then
        var row := MigrationRecord(m.version, m.name, env.now, env.elapsedMs, Some(Checksum(m)), Up);
        (RunResult(m.version, m.name, direction, true, env.elapsedMs), table + [row])
      else
        (RunResult(m.version, m.name, direction, true, env.elapsedMs),
         Filter(table, (x: MigrationRecord) => x.version != m.version))
  }

  datatype BatchResult = BatchResult(results: seq<RunResult>, success: bool, successCount: nat, failedCount: nat)

  /** The loop of `runMigrations` over already ordered migrations: run each
      in turn and stop after the first failure. */
  function RunInOrder(ms: seq<Migration>, direction: Direction, table: Table, env: RunEnv): (r: (seq<RunResult>, Table))
    ensures |r.0| <= |ms|
    ensures forall i :: 0 <= i < |r.0| ==> r.0[i].version == ms[i].version && r.0[i].direction == direction
    ensures forall i :: 0 <= i < |r.0| - 1 ==> r.0[i].success
    ensures |r.0| < |ms| ==> |r.0| > 0 && !r.0[|r.0| - 1].success
    ensures |ms| > 0 ==> |r.0| > 0
    decreases |ms|
  {
    if |ms| == 0 then ([], table)
    else
      var (first, t1) := RunSingle(ms[0], direction, table, env);
      if !first.success then ([first], t1)
      else
        var (rest, t2) := RunInOrder(ms[1..], direction, t1, env);
        ([first] + rest, t2)
  }

  /** The order a batch runs in: ascending for `up`, descending for `down`. */
  function BatchOrder(ms: seq<Migration>, direction: Direction): (r: seq<Migration>)
    ensures |r| == |ms|
    ensures direction == Up ==> r == SortMigrations(ms)
    ensures direction == Down ==> forall i :: 0 <= i < |ms| ==> r[i] == SortMigrations(ms)[|ms| - 1 - i]
  {
    if direction == Up then SortMigrations(ms) else Reverse(SortMigrations(ms))
  }

  function IsSuccess(): RunResult -> bool {
    (x: RunResult) => x.success
  }

  /** `runMigrations`. */
  function RunMigrations(ms: seq<Migration>, direction: Direction, table: Table, env: RunEnv): (r: (BatchResult, Table))
    ensures r.0.failedCount <= 1
    ensures r.0.successCount + r.0.failedCount == |r.0.results|
    ensures r.0.success <==> r.0.failedCount == 0
    ensures r.0.success ==> |r.0.results| == |ms| && forall i :: 0 <= i < |ms| ==> r.0.results[i].success
    ensures !r.0.success ==> |r.0.results| > 0 && !r.0.results[|r.0.results| - 1].success
    ensures |r.0.results| <= |ms|
    ensures forall i :: 0 <= i < |r.0.results| ==> r.0.results[i].version == BatchOrder(ms, direction)[i].version
  {
    var (results, t) := RunInOrder(BatchOrder(ms, direction), direction, table, env);
    var failed := if |results| > 0 && !results[|results| - 1].success then 1 else 0;
    (BatchResult(results, failed == 0, |results| - failed, failed), t)
  }

  /** An upward run never removes rows, and a successful one records every
      migration it ran. */
  lemma {:induction false} RunInOrderUpRecords(ms: seq<Migration>, table: Table, env: RunEnv)
    requires !env.dryRun
    ensures var r := RunInOrder(ms, Up, table, env);
            && (forall x :: x in table ==> x in r.1)
            && (|r.0| == |ms| && (forall i :: 0 <= i < |r.0| ==> r.0[i].success) ==>
                  forall m :: m in ms ==> IsApplied(r.1, m.version))
    decreases |ms|
  {
    if |ms| > 0 {
      var (first, t1) := RunSingle(ms[0], Up, table, env);
      if first.success {
        RunInOrderUpRecords(ms[1..], t1, env);
        var (rest, t2) := RunInOrder(ms[1..], Up, t1, env);
        var row := MigrationRecord(ms[0].version, ms[0].name, env.now, env.elapsedMs, Some(Checksum(ms[0])), Up);
        assert row in t1 && row in t2;
        var results := [first] + rest;
        if |results| == |ms| && (forall i :: 0 <= i < |results| ==> results[i].success) {
          TailSucceeds(first, rest);
          forall m | m in ms
            ensures IsApplied(t2, m.version)
          {
            if m != ms[0] {
              var k :| 0 <= k < |ms| && ms[k] == m;
              assert ms[1..][k - 1] == m;
            }
          }
        }
      }
    }
  }

  /** When every run of a batch succeeded, so did every run after the first. */
  lemma TailSucceeds(first: RunResult, rest: seq<RunResult>)
    requires forall i :: 0 <= i < |[first] + rest| ==> ([first] + rest)[i].success
    ensures forall i :: 0 <= i < |rest| ==> rest[i].success
  {
    forall i | 0 <= i < |rest|
      ensures rest[i].success
    {
      assert rest[i] == ([first] + rest)[i + 1];
    }
  }

  /** `up` runs the pending migrations; when the batch succeeds (and is not a
      dry run) nothing is pending afterwards. */
  function UpAll(reg: Registry, table: Table, env: RunEnv): (r: (BatchResult, Table))
    ensures forall i :: 0 <= i < |r.0.results| ==>
              r.0.results[i].direction == Up && !IsApplied(table, r.0.results[i].version)
  {
    var pending := GetStatus(reg, table).pending;
    var r := RunMigrations(pending, Up, table, env);
    forall i | 0 <= i < |r.0.results| ensures !IsApplied(table, r.0.results[i].version) {
      var m := BatchOrder(pending, Up)[i];
      assert m in multiset(SortMigrations(pending));
      assert m in pending;
    }
    r
  }

  lemma UpReachesUpToDate(reg: Registry, table: Table, env: RunEnv)
    requires !env.dryRun
    requires UpAll(reg, table, env).0.success
    ensures GetStatus(reg, UpAll(reg, table, env).1).upToDate
  {
    var pending := GetStatus(reg, table).pending;
    var ordered := BatchOrder(pending, Up);
    var r := RunInOrder(ordered, Up, table, env);
    RunInOrderUpRecords(ordered, table, env);
    forall m | m in reg ensures IsApplied(r.1, m.version) {
      if !IsApplied(table, m.version) {
        assert m in pending;
        assert m in multiset(pending);
        assert m in ordered;
      } else {
        var x :| x in table && x.version == m.version;
        assert x in r.1;
      }
    }
  }

  /** `upTo`: the pending migrations whose version is at most the target in
      string order. */
  function UpTo(reg: Registry, table: Table, target: string, env: RunEnv): (r: (BatchResult, Table))
    ensures forall i :: 0 <= i < |r.0.results| ==>
              StrLessEq(r.0.results[i].version, target) && !IsApplied(table, r.0.results[i].version)
  {
    var pending := Filter(GetStatus(reg, table).pending, (m: Migration) => StrLessEq(m.version, target));
    var r := RunMigrations(pending, Up, table, env);
    forall i | 0 <= i < |r.0.results|
      ensures StrLessEq(r.0.results[i].version, target) && !IsApplied(table, r.0.results[i].version)
    {
      var m := BatchOrder(pending, Up)[i];
      assert m in multiset(SortMigrations(pending));
      assert m in pending;
    }
    r
  }

  /** The registered migration of each record, or the error for the first
      record whose version is not registered. */
  function MigrationsOf(reg: Registry, records: seq<MigrationRecord>): (r: Result<seq<Migration>, string>)
    ensures r.Ok? <==> forall x :: x in records ==> IsRegistered(reg, x.version)
    ensures r.Ok? ==> |r.value| == |records|
                      && forall i :: 0 <= i < |records| ==> r.value[i] in reg && r.value[i].version == records[i].version
    decreases |records|
  {
    if |records| == 0 then Ok([])
    else
      match Lookup(reg, records[0].version)
      case None => Err("Migration " + records[0].version + " not found in registry")
      case Some(m) =>
        assert forall x :: x in records[1..] ==> x in records;
        match MigrationsOf(reg, records[1..])
        case Err(e) =>
          assert exists x :: x in records[1..] && !IsRegistered(reg, x.version);
          Err(e)
        case Ok(rest) =>
          assert forall x :: x in records ==> x == records[0] || x in records[1..];
          Ok([m] + rest)
  }

  /** `down`: rolls back the last row of the status' applied list (the
      greatest version in string order); `None` when nothing is applied. */
  function Rollback(reg: Registry, table: Table, env: RunEnv): (r: Result<Option<(RunResult, Table)>, string>)
    ensures r == Ok(None) <==> forall x :: x in table ==> x.direction != Up
    ensures r.Err? <==> CurrentVersion(table).Some? && !IsRegistered(reg, CurrentVersion(table).value)
    ensures r.Ok? && r.value.Some? ==>
              r.value.value.0.direction == Down && Some(r.value.value.0.version) == CurrentVersion(table)
  {
    var status := GetStatus(reg, table);
    if |status.applied| == 0 then
      Ok(None)
    else
      var last := status.applied[|status.applied| - 1];
      assert Some(last.version) == status.currentVersion;
      match Lookup(reg, last.version)
      case None => Err("Migration " + last.version + " not found in registry")
      case Some(m) => Ok(Some(RunSingle(m, Down, table, env)))
  }

  /** Each version a downward batch runs is the version of one of the rows
      its migrations were looked up for. */
  lemma DownBatchFromRows(ms: seq<Migration>, rows: seq<MigrationRecord>, table: Table, env: RunEnv)
    requires |ms| == |rows| && forall k :: 0 <= k < |ms| ==> ms[k].version == rows[k].version
    ensures forall i :: 0 <= i < |RunMigrations(ms, Down, table, env).0.results| ==>
              exists x :: x in rows && x.version == RunMigrations(ms, Down, table, env).0.results[i].version
  {
    var results := RunMigrations(ms, Down, table, env).0.results;
    forall i | 0 <= i < |results| ensures exists x :: x in rows && x.version == results[i].version {
      var sorted := SortMigrations(ms);
      var m := sorted[|ms| - 1 - i];
      assert m in multiset(sorted);
      assert m in ms;
      var k :| 0 <= k < |ms| && ms[k] == m;
      assert rows[k] in rows;
    }
  }

  /** The applied rows newer than `target` in string order, newest first. */
  function RollbackCandidates(table: Table, target: string): (r: seq<MigrationRecord>)
    ensures forall x :: x in r <==> x in table && x.direction == Up && StrLess(target, x.version)
  {
    var newer := Filter(UpRecords(table), (x: MigrationRecord) => StrLess(target, x.version));
    ReverseMembers(newer);
    Reverse(newer)
  }

  /** `downTo`: rolls back the applied migrations whose version is greater
      than the target in string order, newest first. */
  function DownTo(reg: Registry, table: Table, target: string, env: RunEnv): (r: Result<(BatchResult, Table), string>)
    ensures r.Err? <==> exists x :: x in table && x.direction == Up && StrLess(target, x.version)
                                    && !IsRegistered(reg, x.version)
    ensures r.Ok? ==> forall i :: 0 <= i < |r.value.0.results| ==>
              StrLess(target, r.value.0.results[i].version) && r.value.0.results[i].direction == Down
  {
    var toRollback := RollbackCandidates(table, target);
    match MigrationsOf(reg, toRollback)
    case Err(e) => Err(e)
    case Ok(ms) =>
      DownBatchFromRows(ms, toRollback, table, env);
      Ok(RunMigrations(ms, Down, table, env))
  }

  /** `reset`: rolls back every applied migration, newest first. The applied
      rows are those of the status report, `UpRecords`. */
  function Reset(reg: Registry, table: Table, env: RunEnv): (r: Result<(BatchResult, Table), string>)
    ensures r.Err? <==> exists x :: x in table && x.direction == Up && !IsRegistered(reg, x.version)
    ensures r.Ok? ==> forall i :: 0 <= i < |r.value.0.results| ==> r.value.0.results[i].direction == Down
  {
    var applied := UpRecords(table);
    var toRollback := Reverse(applied);
    ReverseMembers(applied);
    match MigrationsOf(reg, toRollback)
    case Err(e) => Err(e)
    case Ok(ms) => Ok(RunMigrations(ms, Down, table, env))
  }

  // ---------------------------------------------------------------------------
  // Integrity
  // ---------------------------------------------------------------------------

  /** A record is sound when its version is registered and its stored
      checksum, if any, is the registered migration's current checksum. */
  predicate RecordIntact(reg: Registry, x: MigrationRecord) {
    IsRegistered(reg, x.version)
    && (Truthy(x.checksum) ==> x.checksum.value == Checksum(Lookup(reg, x.version).value))
  }

  function IntegrityIssues(reg: Registry, records: seq<MigrationRecord>): (issues: seq<string>)
    ensures |issues| <= |records|
    ensures |issues| == 0 <==> forall x :: x in records ==> RecordIntact(reg, x)
    decreases |records|
  {
    if |records| == 0 then []
    else
      var x := records[0];
      assert forall y :: y in records <==> y == x || y in records[1..];
      var rest := IntegrityIssues(reg, records[1..]);
      match Lookup(reg, x.version)
      case None =>
        assert !RecordIntact(reg, x);
        ["Migration " + x.version + " is applied but not registered"] + rest
      case Some(m) =>
        if Truthy(x.checksum) && Checksum(m) != x.checksum.value then
          ["Migration " + x.version + " has been modified since it was applied (stored: "
           + x.checksum.value + ", current: " + Checksum(m) + ")"] + rest
        else rest
  }

  datatype Integrity = Integrity(valid: bool, issues: seq<string>)

  /** `verifyIntegrity`: valid exactly when every applied row is registered
      and unmodified. */
  function VerifyIntegrity(reg: Registry, table: Table): (r: Integrity)
    ensures r.valid <==> |r.issues| == 0
    ensures r.valid <==> forall x :: x in table ==> RecordIntact(reg, x)
    ensures |r.issues| <= |table|
  {
    var records := GetAppliedMigrations(table);
    assert forall x :: x in records <==> x in table by {
      forall x ensures x in records <==> x in table {
        assert x in records <==> x in multiset(records);
      }
    }
    var issues := IntegrityIssues(reg, records);
    Integrity(|issues| == 0, issues)
  }

  // ---------------------------------------------------------------------------
  // Rollback order: `down` as written and as intended
  // ---------------------------------------------------------------------------

  function MigrationNamed(version: string): Migration {
    Migration(version, "m" + version, "", "")
  }

  function UpRow(version: string): MigrationRecord {
    MigrationRecord(version, "m" + version, 0, 0, None, Up)
  }

  function AlwaysSucceeds(): RunEnv {
    RunEnv(false, (m: Migration, d: Direction) => true, 0, 0)
  }

  lemma NineAndTen()
    ensures ParseInt("9") == Some(9) && ParseInt("10") == Some(10)
    ensures !StrLess("9", "10") && StrLess("10", "9")
  {
    ParseIntOfRendering(9);
    ParseIntOfRendering(10);
    assert NatToString(10) == "10" && NatToString(9) == "9";
  }

  /** `up` runs "9" before "10". */
  lemma UpOrderNineTen()
    ensures SortMigrations([MigrationNamed("10"), MigrationNamed("9")]) == [MigrationNamed("9"), MigrationNamed("10")]
  {
    NineAndTen();
    assert !VersionLe(MigrationNamed("10"), MigrationNamed("9"));
    assert SortBy([MigrationNamed("10")], VersionLe) == [MigrationNamed("10")];
  }

  /** In string order "10" comes before "9", so "9" is the current version. */
  lemma CurrentVersionNineTen()
    ensures CurrentVersion([UpRow("9"), UpRow("10")]) == Some("9")
  {
    NineAndTen();
    var table := [UpRow("9"), UpRow("10")];
    var cur := CurrentVersion(table);
    assert UpRow("9") in table && UpRow("10") in table;
    assert StrLessEq("9", cur.value);
  }

  /** With versions "9" and "10", `up` runs "10" last (numeric order), but
      `down` rolls back "9": the rows come back in string order, where "10"
      sorts before "9". */
  lemma RollbackUndoesWrongMigration()
    ensures SortMigrations([MigrationNamed("10"), MigrationNamed("9")]) == [MigrationNamed("9"), MigrationNamed("10")]
    ensures var r := Rollback([MigrationNamed("9"), MigrationNamed("10")], [UpRow("9"), UpRow("10")], AlwaysSucceeds());
            r.Ok? && r.value.Some? && r.value.value.0.version == "9"
  {
    UpOrderNineTen();
    CurrentVersionNineTen();
    var reg := [MigrationNamed("9"), MigrationNamed("10")];
    var table := [UpRow("9"), UpRow("10")];
    assert MigrationNamed("9") in reg && IsRegistered(reg, "9");
    assert UpRow("9") in table;
    var r := Rollback(reg, table, AlwaysSucceeds());
    assert r != Ok(None) && !r.Err?;
  }

  /** The comparator of `sortMigrations`, on rows. */
  predicate RecordOrderLe(a: MigrationRecord, b: MigrationRecord) {
    VersionLe(MigrationNamed(a.version), MigrationNamed(b.version))
  }

  function NumericRecordLe(a: MigrationRecord, b: MigrationRecord): bool {
    ParseInt(a.version).GetOr(0) <= ParseInt(b.version).GetOr(0)
  }

  /** The intended current version: the applied row that comes last in the
      order `up` applies migrations in. */
  function NewestApplied(table: Table): (r: Option<MigrationRecord>)
    ensures r.None? <==> forall x :: x in table ==> x.direction != Up
    ensures r.Some? ==> r.value in table && r.value.direction == Up
  {
    var ordered := SortBy(UpRecords(table), RecordOrderLe);
    SameElements(ordered, UpRecords(table));
    if |ordered| > 0 then
      assert ordered[|ordered| - 1] in ordered;
      Some(ordered[|ordered| - 1])
    else
      None
  }

  /** When every applied version is numeric, the intended current version is
      the numerically greatest. */
  lemma NewestAppliedIsNumericMax(table: Table)
    requires forall x :: x in table && x.direction == Up ==> ParseInt(x.version).Some?
    ensures NewestApplied(table).Some? ==>
              forall x :: x in table && x.direction == Up ==>
                ParseInt(x.version).value <= ParseInt(NewestApplied(table).value.version).value
  {
    var ordered := SortBy(UpRecords(table), RecordOrderLe);
    OrderedNumerically(table);
    if |ordered| > 0 {
      assert NewestApplied(table) == Some(ordered[|ordered| - 1]);
      AboveAll(table, ordered);
    }
  }

  /** On numeric versions, the order `up` runs migrations in is numeric order. */
  lemma OrderedNumerically(table: Table)
    requires forall x :: x in table && x.direction == Up ==> ParseInt(x.version).Some?
    ensures SortedBy(SortBy(UpRecords(table), RecordOrderLe), NumericRecordLe)
    ensures forall x :: x in SortBy(UpRecords(table), RecordOrderLe) <==> x in table && x.direction == Up
  {
    var up := UpRecords(table);
    SortBySorted(up, RecordOrderLe, NumericRecordLe);
    SameElements(SortBy(up, RecordOrderLe), up);
  }

  /** The last of the applied rows in numeric order is numerically the greatest. */
  lemma AboveAll(table: Table, ordered: seq<MigrationRecord>)
    requires forall x :: x in table && x.direction == Up ==> ParseInt(x.version).Some?
    requires SortedBy(ordered, NumericRecordLe) && |ordered| > 0
    requires forall x :: x in ordered <==> x in table && x.direction == Up
    ensures forall x :: x in table && x.direction == Up ==>
              ParseInt(x.version).value <= ParseInt(ordered[|ordered| - 1].version).value
  {
    forall x | x in table && x.direction == Up
      ensures ParseInt(x.version).value <= ParseInt(ordered[|ordered| - 1].version).value
    {
      LastIsNumericMax(ordered, x);
    }
  }

  /** In a list sorted numerically, no row exceeds the last. */
  lemma LastIsNumericMax(ordered: seq<MigrationRecord>, x: MigrationRecord)
    requires SortedBy(ordered, NumericRecordLe) && x in ordered
    ensures NumericRecordLe(x, ordered[|ordered| - 1])
  {
    var k :| 0 <= k < |ordered| && ordered[k] == x;
    if k < |ordered| - 1 {
      assert NumericRecordLe(ordered[k], ordered[|ordered| - 1]);
    }
  }

  /** `down` as intended: rolls back the newest applied migration in the
      order `up` runs them. */
  function RollbackNewest(reg: Registry, table: Table, env: RunEnv): (r: Result<Option<(RunResult, Table)>, string>)
    ensures r == Ok(None) <==> forall x :: x in table ==> x.direction != Up
    ensures r.Err? <==> NewestApplied(table).Some? && !IsRegistered(reg, NewestApplied(table).value.version)
    ensures r.Ok? && r.value.Some? ==>
              r.value.value.0.direction == Down && r.value.value.0.version == NewestApplied(table).value.version
  {
    match NewestApplied(table)
    case None => Ok(None)
    case Some(last) =>
      match Lookup(reg, last.version)
      case None => Err("Migration " + last.version + " not found in registry")
      case Some(m) => Ok(Some(RunSingle(m, Down, table, env)))
  }

  /** On the same input, the intended rollback undoes "10". */
  lemma RollbackNewestUndoesLastMigration()
    ensures var r := RollbackNewest([MigrationNamed("9"), MigrationNamed("10")], [UpRow("9"), UpRow("10")], AlwaysSucceeds());
            r.Ok? && r.value.Some? && r.value.value.0.version == "10"
  {
    NewestOfNineAndTen();
    assert MigrationNamed("10") in [MigrationNamed("9"), MigrationNamed("10")];
  }

  /** The intended current version of a table holding "9" and "10" is "10". */
  lemma NewestOfNineAndTen()
    ensures NewestApplied([UpRow("9"), UpRow("10")]).Some?
    ensures NewestApplied([UpRow("9"), UpRow("10")]).value.version == "10"
  {
    NineAndTen();
    var table := [UpRow("9"), UpRow("10")];
    NewestAppliedIsNumericMax(table);
    assert UpRow("10") in table;
    TopOfNineAndTen(NewestApplied(table).value);
  }

  /** Of "9" and "10", only "10" is numerically at least 10. */
  lemma TopOfNineAndTen(r: MigrationRecord)
    requires r in [UpRow("9"), UpRow("10")]
    requires ParseInt(r.version).Some? && 10 <= ParseInt(r.version).value
    ensures r.version == "10"
  {
    NineAndTen();
  }
}
