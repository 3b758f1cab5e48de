/** The personal-tasks daily planner: choose the open tasks that belong to a
    day, order them by priority, energy and due date, and lay them out greedily
    as time blocks between the start and the end of the working day, skipping
    lunch, keeping a buffer between blocks and never exceeding the daily
    capacity. Clock times are minutes after midnight. */
module DailyPlanning {
  import opened Common
  import opened Sorting

  // ---------------------------------------------------------------------------
  // Tasks
  // ---------------------------------------------------------------------------

  datatype Priority = Critical | High | Medium | Low

  datatype Energy = HighEnergy | MediumEnergy | LowEnergy

  /** The fields of a personal task that planning reads. `estimatedMinutes` is
      `estimated_hours * 60`, with 0 standing for an absent estimate. */
  datatype Task = Task(
    id: string,
    status: string,
    priority: Priority,
    energy: Option<Energy>,
    scheduledStart: Option<string>,
    dueDate: Option<string>,
    estimatedMinutes: nat,
    contexts: seq<string>,
    timeOfDay: Option<string>,
    isInbox: bool)

  /** `estimated_hours || 1`, in minutes: a missing or zero estimate counts as an hour. */
  function EstimatedMinutes(t: Task): (m: nat)
    ensures m >= 1
    ensures t.estimatedMinutes > 0 ==> m == t.estimatedMinutes
    ensures t.estimatedMinutes == 0 ==> m == 60
  {
    if t.estimatedMinutes > 0 then t.estimatedMinutes else 60
  }

  // ---------------------------------------------------------------------------
  // Clock times
  // ---------------------------------------------------------------------------

  /** The text before the first `c`, the first piece of `s.split(c)`. */
  function FieldBefore(s: string, c: char): (r: string)
    ensures c !in r && StartsWith(s, r)
    ensures |r| < |s| ==> s[|r|] == c
    ensures c !in s ==> r == s
    decreases |s|
  {
    if |s| == 0 then ""
    else if s[0] == c then ""
    else
      var rest := FieldBefore(s[1..], c);
      assert s == [s[0]] + s[1..];
      [s[0]] + rest
  }

  /** The first piece of a text that carries `c` after a first piece without it. */
  lemma {:induction false} FieldBeforeSeparator(a: string, c: char, b: string)
    requires c !in a
    ensures FieldBefore(a + [c] + b, c) == a
    decreases |a|
  {
    var s := a + [c] + b;
    if |a| > 0 {
      assert s[0] == a[0] && s[1..] == a[1..] + [c] + b;
      FieldBeforeSeparator(a[1..], c, b);
      assert [a[0]] + a[1..] == a;
    }
  }

  /** `Number(p)` on a piece of a clock time: the empty piece is 0, a run of
      digits is its value, anything else is taken as not a number. */
  function NumberOf(p: string): (r: Option<nat>)
    ensures r.Some? <==> forall i :: 0 <= i < |p| ==> IsDigit(p[i])
  {
    if forall i :: 0 <= i < |p| ==> IsDigit(p[i]) then Some(DigitsValue(p)) else None
  }

  /** `parseTime`: "HH:MM" read as minutes after midnight, `None` where
      JavaScript would compute NaN (no colon, or a piece that is not a number). */
  function ParseTime(s: string): (r: Option<nat>)
    ensures r.Some? ==> ':' in s
  {
    var h := FieldBefore(s, ':');
    if |h| == |s| then None
    else HoursMinutes(h, FieldBefore(s[|h| + 1..], ':'))
  }

  /** `hours * 60 + minutes` on the two pieces, `None` when either is not a number. */
  function HoursMinutes(h: string, m: string): Option<nat> {
    if NumberOf(h).Some? && NumberOf(m).Some? then Some(NumberOf(h).value * 60 + NumberOf(m).value)
    else None
  }

  /** `String(n).padStart(2, '0')`. */
  function Pad2(s: string): (r: string)
    ensures |r| >= 2
  {
    if |s| >= 2 then s else if |s| == 1 then "0" + s else "00"
  }

  /** `formatTime`: minutes after midnight as "HH:MM", each side padded to two digits. */
  function FormatTime(minutes: nat): (r: string)
    ensures ':' in r
  {
    Clock(minutes / 60, minutes % 60)
  }

  /** Hours and minutes written as "HH:MM". */
  function Clock(hours: nat, mins: nat): (r: string)
    ensures ':' in r
  {
    var r := Pad2(NatToString(hours)) + ":" + Pad2(NatToString(mins));
    assert r[|Pad2(NatToString(hours))|] == ':';
    r
  }

  /** A leading zero does not change the value of a digit string. */
  lemma {:induction false} LeadingZero(s: string)
    requires forall i :: 0 <= i < |s| ==> IsDigit(s[i])
    ensures DigitsValue("0" + s) == DigitsValue(s)
    decreases |s|
  {
    var z := "0" + s;
    if |s| > 0 {
      assert z[..|z| - 1] == "0" + s[..|s| - 1];
      assert z[|z| - 1] == s[|s| - 1];
      LeadingZero(s[..|s| - 1]);
    } else {
      assert z[..0] == "";
    }
  }

  /** Padding a decimal rendering keeps it a digit string of the same value. */
  lemma PaddedValue(n: nat)
    ensures var p := Pad2(NatToString(n));
            (forall i :: 0 <= i < |p| ==> IsDigit(p[i])) && ':' !in p && DigitsValue(p) == n
  {
    var s := NatToString(n);
    NatToStringRoundTrip(n);
    if |s| < 2 {
      LeadingZero(s);
      assert Pad2(s) == "0" + s;
    }
    var p := Pad2(s);
    assert forall i :: 0 <= i < |p| ==> IsDigit(p[i]) && p[i] != ':';
  }

  /** Two digit strings around a colon parse as hours and minutes. */
  lemma ParseJoined(a: string, b: string)
    requires forall i :: 0 <= i < |a| ==> IsDigit(a[i])
    requires forall i :: 0 <= i < |b| ==> IsDigit(b[i])
    ensures ParseTime(a + [':'] + b) == Some(DigitsValue(a) * 60 + DigitsValue(b))
  {
    assert ':' !in a by {
      assert forall i :: 0 <= i < |a| ==> a[i] != ':';
    }
    assert ':' !in b by {
      assert forall i :: 0 <= i < |b| ==> b[i] != ':';
    }
    SplitAtColon(a, b);
    DigitPieces(a, b);
  }

  /** A text with one colon splits into the pieces around it. */
  lemma SplitAtColon(a: string, b: string)
    requires ':' !in a && ':' !in b
    ensures ParseTime(a + [':'] + b) == HoursMinutes(a, b)
  {
    var s := a + [':'] + b;
    FieldBeforeSeparator(a, ':', b);
    assert s[|a| + 1..] == b;
  }

  /** Two digit strings give hours and minutes. */
  lemma DigitPieces(a: string, b: string)
    requires forall i :: 0 <= i < |a| ==> IsDigit(a[i])
    requires forall i :: 0 <= i < |b| ==> IsDigit(b[i])
    ensures HoursMinutes(a, b) == Some(DigitsValue(a) * 60 + DigitsValue(b))
  {
    var x, y := DigitsValue(a), DigitsValue(b);
    assert NumberOf(a) == Some(x) && NumberOf(b) == Some(y);
  }

  /** Formatting then parsing gives the minutes back. */
  lemma ParseFormatTime(minutes: nat)
    ensures ParseTime(FormatTime(minutes)) == Some(minutes)
  {
    var a := Pad2(NatToString(minutes / 60));
    var b := Pad2(NatToString(minutes % 60));
    PaddedValue(minutes / 60);
    PaddedValue(minutes % 60);
    assert FormatTime(minutes) == a + [':'] + b;
    ParseJoined(a, b);
  }

  /** A clock time written as two digits, a colon and two digits below 60. */
  predicate WellFormedClock(s: string) {
    && |s| == 5
    && IsDigit(s[0]) && IsDigit(s[1]) && s[2] == ':' && IsDigit(s[3]) && IsDigit(s[4])
    && s[3] <= '5'
  }

  /** The value of two decimal digits. */
  function PairValue(t: string): (v: nat)
    requires |t| == 2 && IsDigit(t[0]) && IsDigit(t[1])
    ensures v < 100
  {
    10 * DigitValue(t[0]) + DigitValue(t[1])
  }

  /** Two digits read as a digit string are worth their pair value. */
  lemma TwoDigitsValue(t: string)
    requires |t| == 2 && IsDigit(t[0]) && IsDigit(t[1])
    ensures DigitsValue(t) == PairValue(t)
  {
    var u := t[..1];
    assert u[..0] == "" && u[0] == t[0];
    assert DigitsValue(u) == DigitValue(t[0]);
  }

  /** A digit character is the rendering of its own value. */
  lemma DigitCharOfValue(c: char)
    requires IsDigit(c)
    ensures DigitChar(DigitValue(c)) == c
  {
    var d := DigitValue(c);
    assert "0123456789"[d] as int == '0' as int + d;
  }

  /** A number of two decimal places renders as its two digits. */
  lemma RenderTwoPlaces(n: nat)
    requires 10 <= n < 100
    ensures NatToString(n) == [DigitChar(n / 10), DigitChar(n % 10)]
  {
    assert NatToString(n / 10) == [DigitChar(n / 10)];
  }

  /** Two digits are the padded rendering of their value. */
  lemma TwoDigits(t: string)
    requires |t| == 2 && IsDigit(t[0]) && IsDigit(t[1])
    ensures Pad2(NatToString(PairValue(t))) == t
  {
    var d0, d1 := DigitValue(t[0]), DigitValue(t[1]);
    DigitCharOfValue(t[0]);
    DigitCharOfValue(t[1]);
    assert t == [t[0], t[1]];
    if d0 == 0 {
      assert NatToString(d1) == [t[1]];
      assert t[0] == '0';
    } else {
      var n := 10 * d0 + d1;
      assert n / 10 == d0 && n % 10 == d1;
      RenderTwoPlaces(n);
    }
  }

  /** A well-formed clock time parses, and formatting its value writes it back. */
  lemma FormatParseTime(s: string)
    requires WellFormedClock(s)
    ensures ParseTime(s).Some? && FormatTime(ParseTime(s).value) == s
  {
    var a, b := s[..2], s[3..];
    assert s == a + [':'] + b;
    ClockMinutes(s);
    var v := ParseTime(s).value;
    FormatParts(a, b, PairValue(a), PairValue(b), v, s);
  }

  /** Formatting the value of two-digit hours and minutes below 60 writes the pieces back. */
  lemma FormatParts(a: string, b: string, h: nat, m: nat, v: nat, s: string)
    requires |a| == 2 && IsDigit(a[0]) && IsDigit(a[1])
    requires |b| == 2 && IsDigit(b[0]) && IsDigit(b[1]) && b[0] <= '5'
    requires h == PairValue(a) && m == PairValue(b) && v == h * 60 + m
    requires s == a + [':'] + b
    ensures FormatTime(v) == s
  {
    ClockValue(h, m, v);
    TwoDigits(a);
    TwoDigits(b);
    ClockOfPieces(h, m, a, b);
  }

  /** Hours and minutes whose renderings are given pieces write those pieces around a colon. */
  lemma ClockOfPieces(h: nat, m: nat, a: string, b: string)
    requires Pad2(NatToString(h)) == a && Pad2(NatToString(m)) == b
    ensures Clock(h, m) == a + [':'] + b
  {
  }

  /** Minutes below 60 after whole hours format as the hours and the minutes. */
  lemma ClockValue(h: nat, m: nat, v: nat)
    requires m < 60 && v == h * 60 + m
    ensures FormatTime(v) == Clock(h, m)
  {
    DivMod60(h, m, v);
  }

  /** Whole hours and the minutes below 60 are the quotient and remainder by 60. */
  lemma DivMod60(h: nat, m: nat, v: nat)
    requires m < 60 && v == h * 60 + m
    ensures v / 60 == h && v % 60 == m
  {
  }

  // ---------------------------------------------------------------------------
  // Choosing the day's tasks
  // ---------------------------------------------------------------------------

  /** The date part of an ISO timestamp: the text before the first 'T'. */
  function DatePart(s: string): (r: string)
    ensures 'T' !in r && StartsWith(s, r)
    ensures 'T' !in s ==> r == s
  {
    FieldBefore(s, 'T')
  }

  predicate Closed(t: Task) {
    t.status == "done" || t.status == "archived"
  }

  predicate ScheduledOn(t: Task, day: string) {
    Truthy(t.scheduledStart) && DatePart(t.scheduledStart.value) == day
  }

  predicate DueOn(t: Task, day: string) {
    Truthy(t.dueDate) && DatePart(t.dueDate.value) == day
  }

  predicate OverdueUnscheduled(t: Task, day: string) {
    Truthy(t.dueDate) && !Truthy(t.scheduledStart) && StrLess(DatePart(t.dueDate.value), day)
  }

  predicate UndatedCritical(t: Task) {
    !Truthy(t.dueDate) && t.priority == Critical
  }

  /** The decision of `filterTasksForDay` for one task, test by test. */
  predicate BelongsToDay(t: Task, day: string) {
    if Closed(t) then false
    else if Truthy(t.scheduledStart) && DatePart(t.scheduledStart.value) == day then true
    else if Truthy(t.dueDate) && DatePart(t.dueDate.value) == day then true
    else if Truthy(t.dueDate) && !Truthy(t.scheduledStart) && StrLess(DatePart(t.dueDate.value), day) then true
    else !Truthy(t.dueDate) && t.priority == Critical
  }

  function ForDay(day: string): Task -> bool {
    (t: Task) => BelongsToDay(t, day)
  }

  /** `filterTasksForDay`: an open task belongs to the day when it is scheduled
      on it, due on it, overdue and unscheduled, or critical without a due date. */
  function FilterTasksForDay(tasks: seq<Task>, day: string): (r: seq<Task>)
    ensures forall t :: t in r <==>
      t in tasks && !Closed(t)
      && (ScheduledOn(t, day) || DueOn(t, day) || OverdueUnscheduled(t, day) || UndatedCritical(t))
  {
    Filter(tasks, ForDay(day))
  }

  // ---------------------------------------------------------------------------
  // Ordering
  // ---------------------------------------------------------------------------

  function PriorityRank(p: Priority): nat {
    match p
    case Critical => 4
    case High => 3
    case Medium => 2
    case Low => 1
  }

  /** The energy order, a missing level reading as medium. */
  function EnergyRank(e: Option<Energy>): nat {
    match e.GetOr(MediumEnergy)
    case HighEnergy => 3
    case MediumEnergy => 2
    case LowEnergy => 1
  }

  /** The comparator of `sortForOptimalScheduling`: negative when `a` goes
      first. `instant` is `new Date(d).getTime()`. */
  function Compare(a: Task, b: Task, preferMorning: bool, instant: string -> int): int {
    var priorityDiff := PriorityRank(b.priority) - PriorityRank(a.priority);
    var energyDiff := EnergyRank(b.energy) - EnergyRank(a.energy);
    if priorityDiff != 0 then priorityDiff
    else if preferMorning && energyDiff != 0 then energyDiff
    else if Truthy(a.dueDate) && Truthy(b.dueDate) then instant(a.dueDate.value) - instant(b.dueDate.value)
    else if Truthy(a.dueDate) then -1
    else if Truthy(b.dueDate) then 1
    else 0
  }

  function MayPrecede(preferMorning: bool, instant: string -> int): (Task, Task) -> bool {
    (a: Task, b: Task) => Compare(a, b, preferMorning, instant) <= 0
  }

  /** The order the comparator sorts by, as a lexicographic key: higher
      priority, then (when preferred) higher energy, then tasks with a due date
      by due instant, then tasks without one. */
  function SortKey(t: Task, preferMorning: bool, instant: string -> int): (int, int, int, int) {
    (-(PriorityRank(t.priority) as int),
     if preferMorning then -(EnergyRank(t.energy) as int) else 0,
     if Truthy(t.dueDate) then 0 else 1,
     if Truthy(t.dueDate) then instant(t.dueDate.value) else 0)
  }

  predicate LexLe(x: (int, int, int, int), y: (int, int, int, int)) {
    x.0 < y.0 || (x.0 == y.0 && (x.1 < y.1 || (x.1 == y.1 && (x.2 < y.2 || (x.2 == y.2 && x.3 <= y.3)))))
  }

  function ByKey(preferMorning: bool, instant: string -> int): (Task, Task) -> bool {
    (a: Task, b: Task) => LexLe(SortKey(a, preferMorning, instant), SortKey(b, preferMorning, instant))
  }

  function ByPriority(): (Task, Task) -> bool {
    (a: Task, b: Task) => PriorityRank(a.priority) >= PriorityRank(b.priority)
  }

  /** The comparator says "a may go first" exactly when a's key is no larger. */
  lemma CompareIsKeyOrder(a: Task, b: Task, preferMorning: bool, instant: string -> int)
    ensures Compare(a, b, preferMorning, instant) <= 0
        <==> LexLe(SortKey(a, preferMorning, instant), SortKey(b, preferMorning, instant))
  {
  }

  /** The key order is a total preorder on any tasks. */
  lemma KeyOrderTotal(xs: seq<Task>, preferMorning: bool, instant: string -> int)
    ensures TotalPreorderOn(xs, ByKey(preferMorning, instant))
    ensures TotalPreorderOn(xs, ByPriority())
  {
  }

  /** `sortForOptimalScheduling`: the same tasks, reordered. */
  function SortForOptimalScheduling(tasks: seq<Task>, preferMorning: bool, instant: string -> int): (r: seq<Task>)
    ensures multiset(r) == multiset(tasks)
  {
    SortBy(tasks, MayPrecede(preferMorning, instant))
  }

  /** The sorted tasks run by descending priority, then (when preferred) by
      descending energy, then by due date with undated tasks last. */
  lemma SortedForScheduling(tasks: seq<Task>, preferMorning: bool, instant: string -> int)
    ensures SortedBy(SortForOptimalScheduling(tasks, preferMorning, instant), ByKey(preferMorning, instant))
    ensures SortedBy(SortForOptimalScheduling(tasks, preferMorning, instant), ByPriority())
  {
    var le := MayPrecede(preferMorning, instant);
    KeyOrderTotal(tasks, preferMorning, instant);
    forall a: Task, b: Task
      ensures Compare(a, b, preferMorning, instant) <= 0
          <==> LexLe(SortKey(a, preferMorning, instant), SortKey(b, preferMorning, instant))
    {
      CompareIsKeyOrder(a, b, preferMorning, instant);
    }
    assert RefinesOn(tasks, le, ByKey(preferMorning, instant));
    assert RefinesOn(tasks, le, ByPriority());
    SortBySorted(tasks, le, ByKey(preferMorning, instant));
    SortBySorted(tasks, le, ByPriority());
  }

  // ---------------------------------------------------------------------------
  // Preferences
  // ---------------------------------------------------------------------------

  /** `PlanningPreferences`: every field may be left out. */
  datatype Preferences = Preferences(
    workStartTime: Option<string>,
    workEndTime: Option<string>,
    lunchStartTime: Option<string>,
    lunchDurationMinutes: Option<nat>,
    maxHoursPerDay: Option<real>,
    preferMorningForHighEnergy: Option<bool>,
    bufferBetweenTasksMinutes: Option<nat>)

  /** The preferences with their defaults applied and the clock times read. */
  datatype Config = Config(
    workStart: nat,
    workEnd: Option<nat>,
    lunchStart: Option<nat>,
    lunchMinutes: nat,
    maxMinutes: real,
    buffer: nat,
    preferMorning: bool)

  const NoPreferences := Preferences(None, None, None, None, None, None, None)

  /** The settings `createDailyPlan` works with: the defaults 09:00, 17:00,
      12:00, 60 minutes of lunch, 8 hours, morning preference and a 10 minute
      buffer. An end or lunch time that is not a number is kept as `None`;
      a start time that is not a number gives no settings. */
  function Configure(p: Preferences): (r: Option<Config>)
    ensures r.Some? <==> ParseTime(p.workStartTime.GetOr("09:00")).Some?
    ensures r.Some? ==>
      && r.value.workStart == ParseTime(p.workStartTime.GetOr("09:00")).value
      && r.value.workEnd == ParseTime(p.workEndTime.GetOr("17:00"))
      && r.value.lunchStart == ParseTime(p.lunchStartTime.GetOr("12:00"))
    ensures r.Some? ==>
      && r.value.maxMinutes == p.maxHoursPerDay.GetOr(8.0) * 60.0
      && r.value.lunchMinutes == p.lunchDurationMinutes.GetOr(60)
      && r.value.buffer == p.bufferBetweenTasksMinutes.GetOr(10)
      && r.value.preferMorning == p.preferMorningForHighEnergy.GetOr(true)
  {
    var start := ParseTime(p.workStartTime.GetOr("09:00"));
    var end := ParseTime(p.workEndTime.GetOr("17:00"));
    var lunch := ParseTime(p.lunchStartTime.GetOr("12:00"));
    if start.Some? then
      Some(Config(start.value, end, lunch, p.lunchDurationMinutes.GetOr(60),
                  p.maxHoursPerDay.GetOr(8.0) * 60.0, p.bufferBetweenTasksMinutes.GetOr(10),
                  p.preferMorningForHighEnergy.GetOr(true)))
    else None
  }

  /** The value of a well-formed clock time. */
  lemma ClockMinutes(s: string)
    requires WellFormedClock(s)
    ensures ParseTime(s) == Some((10 * DigitValue(s[0]) + DigitValue(s[1])) * 60 + 10 * DigitValue(s[3]) + DigitValue(s[4]))
  {
    var a, b := s[..2], s[3..];
    assert s == a + [':'] + b;
    ParseJoined(a, b);
    TwoDigitsValue(a);
    TwoDigitsValue(b);
  }

  /** A well-formed clock time parses as a given number of minutes when its
      digits are worth that many. */
  lemma ClockMinutesAre(s: string, v: nat)
    requires WellFormedClock(s)
    requires v == (10 * DigitValue(s[0]) + DigitValue(s[1])) * 60 + 10 * DigitValue(s[3]) + DigitValue(s[4])
    ensures ParseTime(s) == Some(v)
  {
    ClockMinutes(s);
  }

  /** The three default clock times. */
  lemma DefaultClockTimes()
    ensures ParseTime("09:00") == Some(540)
    ensures ParseTime("17:00") == Some(1020)
    ensures ParseTime("12:00") == Some(720)
  {
    ClockMinutesAre("09:00", 540);
    ClockMinutesAre("17:00", 1020);
    ClockMinutesAre("12:00", 720);
  }

  /** With no preferences the day runs 09:00 to 17:00 with lunch at 12:00. */
  lemma DefaultConfiguration()
    ensures Configure(NoPreferences) == Some(Config(540, Some(1020), Some(720), 60, 480.0, 10, true))
  {
    DefaultClockTimes();
  }

  // ---------------------------------------------------------------------------
  // Laying out the blocks
  // ---------------------------------------------------------------------------

  /** A placed task: its first minute and its length. */
  datatype Slot = Slot(start: nat, minutes: nat, task: Task)

  function SlotEnd(s: Slot): nat {
    s.start + s.minutes
  }

  function SlotMinutes(s: Slot): nat {
    s.minutes
  }

  /** `t` falls inside lunch; never when the lunch time is not a number,
      since every comparison with NaN is false. */
  predicate DuringLunch(t: nat, c: Config) {
    c.lunchStart.Some? && c.lunchStart.value <= t < c.lunchStart.value + c.lunchMinutes
  }

  /** The cursor moved past lunch when it falls inside it. */
  function SkipLunch(t: nat, c: Config): (r: nat)
    ensures t <= r && !DuringLunch(r, c)
    ensures !DuringLunch(t, c) ==> r == t
    ensures c.lunchStart.None? ==> r == t
  {
    if DuringLunch(t, c) then c.lunchStart.value + c.lunchMinutes else t
  }

  /** `t` is not past the end of work; always so when the end time is not a
      number, since `t > NaN` is false. */
  predicate EndsBy(t: nat, c: Config) {
    c.workEnd.None? || t <= c.workEnd.value
  }

  /** The next task still fits: within the day's capacity and, once lunch is
      skipped, by the end of work. */
  predicate Fits(t: Task, cur: nat, total: nat, c: Config) {
    && (total + EstimatedMinutes(t)) as real <= c.maxMinutes
    && EndsBy(SkipLunch(cur, c) + EstimatedMinutes(t), c)
  }

  /** The loop of `createDailyPlan`: place the tasks in order from `cur`, having
      used `total` minutes, until one does not fit. */
  function PlaceTasks(tasks: seq<Task>, cur: nat, total: nat, c: Config): (r: seq<Slot>)
    ensures |r| <= |tasks|
    decreases |tasks|
  {
    if |tasks| == 0 || !Fits(tasks[0], cur, total, c) then []
    else
      var start := SkipLunch(cur, c);
      var m := EstimatedMinutes(tasks[0]);
      [Slot(start, m, tasks[0])] + PlaceTasks(tasks[1..], start + m + c.buffer, total + m, c)
  }

  /** The slots hold the leading tasks, each with its estimate. */
  ghost predicate PlacedInOrder(r: seq<Slot>, tasks: seq<Task>) {
    && |r| <= |tasks|
    && (forall k :: 0 <= k < |r| ==> r[k].task == tasks[k] && r[k].minutes == EstimatedMinutes(tasks[k]))
  }

  /** The slots start no earlier than `cur`, never during lunch, and end by the end of work. */
  ghost predicate PlacedInHours(r: seq<Slot>, cur: nat, c: Config) {
    forall k :: 0 <= k < |r| ==> cur <= r[k].start && !DuringLunch(r[k].start, c) && EndsBy(SlotEnd(r[k]), c)
  }

  /** Every slot starts at least the buffer after every earlier one ends. */
  ghost predicate PlacedSpaced(r: seq<Slot>, c: Config) {
    forall j, k :: 0 <= j < k < |r| ==> SlotEnd(r[j]) + c.buffer <= r[k].start
  }

  /** Where the next block would start from: after the last block and its buffer. */
  function NextCursor(r: seq<Slot>, cur: nat, c: Config): nat {
    if |r| == 0 then cur else SlotEnd(r[|r| - 1]) + c.buffer
  }

  /** Each slot starts exactly where the cursor stands once the earlier slots
      are placed and lunch is skipped: no gap is left between blocks beyond
      the buffer and lunch. */
  ghost predicate PlacedAtCursor(r: seq<Slot>, cur: nat, c: Config) {
    forall k :: 0 <= k < |r| ==> r[k].start == SkipLunch(NextCursor(r[..k], cur, c), c)
  }

  /** The blocks are the leading tasks, each with its estimate, each starting
      at the lunch-adjusted cursor, inside working hours, not starting during
      lunch, separated by the buffer and within the remaining capacity. */
  ghost predicate WellPlaced(r: seq<Slot>, tasks: seq<Task>, cur: nat, total: nat, c: Config) {
    && PlacedInOrder(r, tasks)
    && PlacedAtCursor(r, cur, c)
    && PlacedInHours(r, cur, c)
    && PlacedSpaced(r, c)
    && (total + SumOf(r, SlotMinutes)) as real <= c.maxMinutes
  }

  lemma PlaceTasksWellPlaced(tasks: seq<Task>, cur: nat, total: nat, c: Config)
    requires total as real <= c.maxMinutes
    ensures WellPlaced(PlaceTasks(tasks, cur, total, c), tasks, cur, total, c)
  {
    PlaceTasksInOrder(tasks, cur, total, c);
    PlaceTasksAtCursor(tasks, cur, total, c);
    PlaceTasksInHours(tasks, cur, total, c);
    PlaceTasksSpaced(tasks, cur, total, c);
    PlaceTasksCapacity(tasks, cur, total, c);
  }

  lemma {:induction false} PlaceTasksAtCursor(tasks: seq<Task>, cur: nat, total: nat, c: Config)
    ensures PlacedAtCursor(PlaceTasks(tasks, cur, total, c), cur, c)
    decreases |tasks|
  {
    var r := PlaceTasks(tasks, cur, total, c);
    if |r| > 0 {
      var start := SkipLunch(cur, c);
      var m := EstimatedMinutes(tasks[0]);
      var next := start + m + c.buffer;
      var rest := PlaceTasks(tasks[1..], next, total + m, c);
      PlaceTasksAtCursor(tasks[1..], next, total + m, c);
      assert r == [Slot(start, m, tasks[0])] + rest;
      forall k | 0 <= k < |r| ensures r[k].start == SkipLunch(NextCursor(r[..k], cur, c), c) {
        if k == 0 {
          assert r[..0] == [];
        } else {
          assert r[k] == rest[k - 1];
          NextCursorAfterFirst(r, k, cur, c);
        }
      }
    }
  }

  /** Past the first slot, the cursor is the one the remaining slots start from. */
  lemma NextCursorAfterFirst(r: seq<Slot>, k: nat, cur: nat, c: Config)
    requires 1 <= k <= |r|
    ensures NextCursor(r[..k], cur, c) == NextCursor(r[1..][..k - 1], SlotEnd(r[0]) + c.buffer, c)
  {
    if k > 1 {
      assert r[..k][k - 1] == r[1..][..k - 1][k - 2];
    }
  }

  lemma {:induction false} PlaceTasksInOrder(tasks: seq<Task>, cur: nat, total: nat, c: Config)
    ensures PlacedInOrder(PlaceTasks(tasks, cur, total, c), tasks)
    decreases |tasks|
  {
    var r := PlaceTasks(tasks, cur, total, c);
    if |r| > 0 {
      var start := SkipLunch(cur, c);
      var m := EstimatedMinutes(tasks[0]);
      var rest := PlaceTasks(tasks[1..], start + m + c.buffer, total + m, c);
      PlaceTasksInOrder(tasks[1..], start + m + c.buffer, total + m, c);
      assert r == [Slot(start, m, tasks[0])] + rest;
      assert forall k :: 1 <= k < |r| ==> r[k] == rest[k - 1] && tasks[k] == tasks[1..][k - 1];
    }
  }

  lemma {:induction false} PlaceTasksInHours(tasks: seq<Task>, cur: nat, total: nat, c: Config)
    ensures PlacedInHours(PlaceTasks(tasks, cur, total, c), cur, c)
    decreases |tasks|
  {
    var r := PlaceTasks(tasks, cur, total, c);
    if |r| > 0 {
      var start := SkipLunch(cur, c);
      var m := EstimatedMinutes(tasks[0]);
      var rest := PlaceTasks(tasks[1..], start + m + c.buffer, total + m, c);
      PlaceTasksInHours(tasks[1..], start + m + c.buffer, total + m, c);
      assert r == [Slot(start, m, tasks[0])] + rest;
      assert forall k :: 1 <= k < |r| ==> r[k] == rest[k - 1];
    }
  }

  lemma {:induction false} PlaceTasksSpaced(tasks: seq<Task>, cur: nat, total: nat, c: Config)
    ensures PlacedSpaced(PlaceTasks(tasks, cur, total, c), c)
    decreases |tasks|
  {
    var r := PlaceTasks(tasks, cur, total, c);
    if |r| > 0 {
      var start := SkipLunch(cur, c);
      var m := EstimatedMinutes(tasks[0]);
      var next := start + m + c.buffer;
      var rest := PlaceTasks(tasks[1..], next, total + m, c);
      PlaceTasksSpaced(tasks[1..], next, total + m, c);
      PlaceTasksInHours(tasks[1..], next, total + m, c);
      assert r == [Slot(start, m, tasks[0])] + rest;
      forall j, k | 0 <= j < k < |r| ensures SlotEnd(r[j]) + c.buffer <= r[k].start {
        assert r[k] == rest[k - 1];
        if j > 0 {
          assert r[j] == rest[j - 1];
        }
      }
    }
  }

  lemma {:induction false} PlaceTasksCapacity(tasks: seq<Task>, cur: nat, total: nat, c: Config)
    requires total as real <= c.maxMinutes
    ensures (total + SumOf(PlaceTasks(tasks, cur, total, c), SlotMinutes)) as real <= c.maxMinutes
    decreases |tasks|
  {
    var r := PlaceTasks(tasks, cur, total, c);
    if |r| > 0 {
      var start := SkipLunch(cur, c);
      var m := EstimatedMinutes(tasks[0]);
      var rest := PlaceTasks(tasks[1..], start + m + c.buffer, total + m, c);
      PlaceTasksCapacity(tasks[1..], start + m + c.buffer, total + m, c);
      assert r == [Slot(start, m, tasks[0])] + rest;
      assert SumOf(r, SlotMinutes) == m + SumOf(rest, SlotMinutes);
    }
  }

  /** Placement stops only at a task that does not fit. */
  lemma {:induction false} PlaceTasksStops(tasks: seq<Task>, cur: nat, total: nat, c: Config)
    ensures var r := PlaceTasks(tasks, cur, total, c);
            |r| < |tasks| ==> !Fits(tasks[|r|], NextCursor(r, cur, c), total + SumOf(r, SlotMinutes), c)
    decreases |tasks|
  {
    var r := PlaceTasks(tasks, cur, total, c);
    if |r| > 0 {
      var start := SkipLunch(cur, c);
      var m := EstimatedMinutes(tasks[0]);
      var next := start + m + c.buffer;
      var rest := PlaceTasks(tasks[1..], next, total + m, c);
      PlaceTasksStops(tasks[1..], next, total + m, c);
      assert r == [Slot(start, m, tasks[0])] + rest;
      assert NextCursor(r, cur, c) == NextCursor(rest, next, c);
      assert SumOf(r, SlotMinutes) == m + SumOf(rest, SlotMinutes);
      if |r| < |tasks| {
        assert tasks[|r|] == tasks[1..][|rest|];
      }
    }
  }

  /** `TimeBlock`: a block with its clock times written out. */
  datatype TimeBlock = TimeBlock(startTime: string, endTime: string, task: Task, estimatedDurationMinutes: nat)

  function ToBlock(s: Slot): TimeBlock {
    TimeBlock(FormatTime(s.start), FormatTime(SlotEnd(s)), s.task, s.minutes)
  }

  /** The blocks of the placed tasks, in order. */
  function ToBlocks(slots: seq<Slot>): (r: seq<TimeBlock>)
    ensures |r| == |slots|
    ensures forall k :: 0 <= k < |r| ==> r[k] == ToBlock(slots[k])
    decreases |slots|
  {
    if |slots| == 0 then [] else [ToBlock(slots[0])] + ToBlocks(slots[1..])
  }

  /** A block's clock times read back as its slot's minutes. */
  lemma BlockTimes(slots: seq<Slot>, k: nat)
    requires k < |slots|
    ensures ParseTime(ToBlocks(slots)[k].startTime) == Some(slots[k].start)
    ensures ParseTime(ToBlocks(slots)[k].endTime) == Some(SlotEnd(slots[k]))
  {
    assert ToBlocks(slots)[k] == ToBlock(slots[k]);
    ParseFormatTime(slots[k].start);
    ParseFormatTime(SlotEnd(slots[k]));
  }

  function BlockMinutes(b: TimeBlock): nat {
    b.estimatedDurationMinutes
  }

  function BlockTask(b: TimeBlock): Task {
    b.task
  }

  /** The tasks of the blocks, in order. */
  function TasksOf(blocks: seq<TimeBlock>): (r: seq<Task>)
    ensures |r| == |blocks| && forall k :: 0 <= k < |r| ==> r[k] == blocks[k].task
  {
    seq(|blocks|, k requires 0 <= k < |blocks| => blocks[k].task)
  }

  // ---------------------------------------------------------------------------
  // The plan
  // ---------------------------------------------------------------------------

  /** `parseTime('12:00')` and `parseTime('17:00')`. */
  const MorningEnd: nat := 720
  const AfternoonEnd: nat := 1020

  lemma DayPartBounds()
    ensures ParseTime("12:00") == Some(MorningEnd) && ParseTime("17:00") == Some(AfternoonEnd)
  {
    ClockMinutesAre("12:00", MorningEnd);
    ClockMinutesAre("17:00", AfternoonEnd);
  }

  /** The three filters on a block's start; a start that is not a number
      fails every comparison. */
  predicate InMorning(b: TimeBlock) {
    var t := ParseTime(b.startTime);
    t.Some? && t.value < MorningEnd
  }

  predicate InAfternoon(b: TimeBlock) {
    var t := ParseTime(b.startTime);
    t.Some? && MorningEnd <= t.value < AfternoonEnd
  }

  predicate InEvening(b: TimeBlock) {
    var t := ParseTime(b.startTime);
    t.Some? && AfternoonEnd <= t.value
  }

  function HasEnergy(e: Energy): Task -> bool {
    (t: Task) => t.energy == Some(e)
  }

  function NotIn(scheduled: seq<Task>): Task -> bool {
    (t: Task) => t !in scheduled
  }

  /** `DailyPlan`, with the planned time kept in minutes beside the hours. */
  datatype DailyPlan = DailyPlan(
    date: string,
    morningBlocks: seq<TimeBlock>,
    afternoonBlocks: seq<TimeBlock>,
    eveningBlocks: seq<TimeBlock>,
    totalPlannedHours: real,
    unscheduledTasks: seq<Task>,
    highEnergyTasks: nat,
    mediumEnergyTasks: nat,
    lowEnergyTasks: nat)

  /** The day's tasks in scheduling order. */
  function DayOrder(tasks: seq<Task>, day: string, c: Config, instant: string -> int): (r: seq<Task>)
    ensures multiset(r) == multiset(FilterTasksForDay(tasks, day))
  {
    SortForOptimalScheduling(FilterTasksForDay(tasks, day), c.preferMorning, instant)
  }

  /** The day's tasks placed from the start of work with nothing used yet. */
  function DaySlots(tasks: seq<Task>, day: string, c: Config, instant: string -> int): seq<Slot> {
    PlaceTasks(DayOrder(tasks, day, c, instant), c.workStart, 0, c)
  }

  /** The blocks `createDailyPlan` lays out before it splits them by time of day. */
  function PlannedBlocks(tasks: seq<Task>, day: string, c: Config, instant: string -> int): (r: seq<TimeBlock>)
    ensures forall b :: b in r ==> b.task in FilterTasksForDay(tasks, day)
  {
    var sorted := DayOrder(tasks, day, c, instant);
    var slots := DaySlots(tasks, day, c, instant);
    var r := ToBlocks(slots);
    assert forall b :: b in r ==> b.task in FilterTasksForDay(tasks, day) by {
      PlaceTasksInOrder(sorted, c.workStart, 0, c);
      forall b | b in r ensures b.task in FilterTasksForDay(tasks, day) {
        var k :| 0 <= k < |r| && r[k] == b;
        assert b.task == sorted[k] && sorted[k] in multiset(sorted);
      }
    }
    r
  }

  /** `createDailyPlan` once the preferences are read. */
  function PlanFor(tasks: seq<Task>, day: string, c: Config, instant: string -> int): (r: DailyPlan)
    ensures r.date == day
    ensures var scheduled := TasksOf(PlannedBlocks(tasks, day, c, instant));
            && r.highEnergyTasks == |Filter(scheduled, HasEnergy(HighEnergy))|
            && r.mediumEnergyTasks == |Filter(scheduled, HasEnergy(MediumEnergy))|
            && r.lowEnergyTasks == |Filter(scheduled, HasEnergy(LowEnergy))|
    ensures r.highEnergyTasks + r.mediumEnergyTasks + r.lowEnergyTasks <= |PlannedBlocks(tasks, day, c, instant)|
  {
    var blocks := PlannedBlocks(tasks, day, c, instant);
    var scheduled := TasksOf(blocks);
    CountExclusive(scheduled, HasEnergy(HighEnergy), HasEnergy(MediumEnergy), HasEnergy(LowEnergy));
    DailyPlan(
      day,
      Filter(blocks, InMorning),
      Filter(blocks, InAfternoon),
      Filter(blocks, InEvening),
      SumOf(blocks, BlockMinutes) as real / 60.0,
      Filter(FilterTasksForDay(tasks, day), NotIn(scheduled)),
      Count(scheduled, HasEnergy(HighEnergy)),
      Count(scheduled, HasEnergy(MediumEnergy)),
      Count(scheduled, HasEnergy(LowEnergy)))
  }

  /** When every planned task has an energy level, the three energy counts
      cover all the planned blocks. */
  lemma EnergyCountsCoverBlocks(tasks: seq<Task>, day: string, c: Config, instant: string -> int)
    requires forall b :: b in PlannedBlocks(tasks, day, c, instant) ==> b.task.energy.Some?
    ensures var plan := PlanFor(tasks, day, c, instant);
            plan.highEnergyTasks + plan.mediumEnergyTasks + plan.lowEnergyTasks == |PlannedBlocks(tasks, day, c, instant)|
  {
    var blocks := PlannedBlocks(tasks, day, c, instant);
    var scheduled := TasksOf(blocks);
    assert forall k :: 0 <= k < |scheduled| ==> scheduled[k].energy.Some? by {
      forall k | 0 <= k < |scheduled| ensures scheduled[k].energy.Some? {
        assert blocks[k] in blocks;
      }
    }
    EnergyLevelsCount(scheduled);
  }

  /** Tasks that all have an energy level are counted once each by the three levels. */
  lemma EnergyLevelsCount(ts: seq<Task>)
    requires forall k :: 0 <= k < |ts| ==> ts[k].energy.Some?
    ensures |Filter(ts, HasEnergy(HighEnergy))| + |Filter(ts, HasEnergy(MediumEnergy))| + |Filter(ts, HasEnergy(LowEnergy))| == |ts|
  {
    forall t | t in ts ensures HasEnergy(HighEnergy)(t) || HasEnergy(MediumEnergy)(t) || HasEnergy(LowEnergy)(t) {
      var k :| 0 <= k < |ts| && ts[k] == t;
      match t.energy.value
      case HighEnergy => assert HasEnergy(HighEnergy)(t);
      case MediumEnergy => assert HasEnergy(MediumEnergy)(t);
      case LowEnergy => assert HasEnergy(LowEnergy)(t);
    }
    CountExclusive(ts, HasEnergy(HighEnergy), HasEnergy(MediumEnergy), HasEnergy(LowEnergy));
  }

  /** `createDailyPlan`: `None` when the start time in the preferences is not a number. */
  function CreateDailyPlan(tasks: seq<Task>, day: string, p: Preferences, instant: string -> int): (r: Option<DailyPlan>)
    ensures r.Some? <==> Configure(p).Some?
    ensures r.Some? ==> r.value.date == day
  {
    match Configure(p)
    case Some(c) => Some(PlanFor(tasks, day, c, instant))
    case None => None
  }

  /** Counting under three mutually exclusive tests counts each element at most
      once, and exactly once when one test always holds. */
  lemma {:induction false} CountExclusive<T(!new)>(s: seq<T>, p: T -> bool, q: T -> bool, u: T -> bool)
    requires forall x :: x in s ==> !(p(x) && q(x)) && !(p(x) && u(x)) && !(q(x) && u(x))
    ensures Count(s, p) + Count(s, q) + Count(s, u) <= |s|
    ensures (forall x :: x in s ==> p(x) || q(x) || u(x)) ==> Count(s, p) + Count(s, q) + Count(s, u) == |s|
    decreases |s|
  {
    if |s| > 0 {
      assert forall x :: x in s[1..] ==> x in s;
      CountExclusive(s[1..], p, q, u);
    }
  }

  /** The plan's three lists split the laid-out blocks by start time: every
      block lands in exactly one of them. */
  lemma PlanPartitionsBlocks(tasks: seq<Task>, day: string, c: Config, instant: string -> int)
    ensures var blocks := PlannedBlocks(tasks, day, c, instant);
            var plan := PlanFor(tasks, day, c, instant);
            && (forall b :: b in blocks <==> b in plan.morningBlocks || b in plan.afternoonBlocks || b in plan.eveningBlocks)
            && |plan.morningBlocks| + |plan.afternoonBlocks| + |plan.eveningBlocks| == |blocks|
            && (forall b :: b in plan.morningBlocks ==> ParseTime(b.startTime).Some? && ParseTime(b.startTime).value < MorningEnd)
            && (forall b :: b in plan.afternoonBlocks ==> ParseTime(b.startTime).Some? && MorningEnd <= ParseTime(b.startTime).value < AfternoonEnd)
            && (forall b :: b in plan.eveningBlocks ==> ParseTime(b.startTime).Some? && AfternoonEnd <= ParseTime(b.startTime).value)
  {
    var blocks := PlannedBlocks(tasks, day, c, instant);
    PlanWithinDay(tasks, day, c, instant);
    assert forall b :: b in blocks ==> ParseTime(b.startTime).Some?;
    CountExclusive(blocks, InMorning, InAfternoon, InEvening);
  }

  /** Every block's clock times are numbers: it starts no earlier than work,
      not during lunch, and ends its estimate later, no later than work ends. */
  ghost predicate BlocksWithinDay(blocks: seq<TimeBlock>, c: Config) {
    forall k :: 0 <= k < |blocks| ==>
      var s, e := ParseTime(blocks[k].startTime), ParseTime(blocks[k].endTime);
      && s.Some? && e.Some?
      && c.workStart <= s.value && !DuringLunch(s.value, c)
      && e.value == s.value + blocks[k].estimatedDurationMinutes && EndsBy(e.value, c)
  }

  /** Every block starts at least the buffer after every earlier block ends. */
  ghost predicate BlocksSpaced(blocks: seq<TimeBlock>, c: Config) {
    forall j, k :: 0 <= j < k < |blocks| ==>
      var e, s := ParseTime(blocks[j].endTime), ParseTime(blocks[k].startTime);
      e.Some? && s.Some? && e.value + c.buffer <= s.value
  }

  /** The blocks of well-placed slots lie within the day, keep the buffer and
      sum to the slots' minutes. */
  lemma SlotBlocks(slots: seq<Slot>, tasks: seq<Task>, c: Config)
    requires WellPlaced(slots, tasks, c.workStart, 0, c)
    ensures BlocksWithinDay(ToBlocks(slots), c) && BlocksSpaced(ToBlocks(slots), c)
    ensures SumOf(ToBlocks(slots), BlockMinutes) as real <= c.maxMinutes
  {
    var blocks := ToBlocks(slots);
    forall k | 0 <= k < |slots| {
      BlockTimes(slots, k);
    }
    SlotsBlocksMinutes(slots);
  }

  /** The blocks carry the slots' minutes. */
  lemma {:induction false} SlotsBlocksMinutes(slots: seq<Slot>)
    ensures SumOf(ToBlocks(slots), BlockMinutes) == SumOf(slots, SlotMinutes)
    decreases |slots|
  {
    if |slots| > 0 {
      SlotsBlocksMinutes(slots[1..]);
    }
  }

  /** The plan never exceeds the daily capacity, and a capacity below one
      minute (a zero or negative hour cap) plans nothing; its blocks hold the
      leading tasks of the scheduling order, lie within working hours, start
      outside lunch and keep the buffer between them. */
  lemma PlanWithinDay(tasks: seq<Task>, day: string, c: Config, instant: string -> int)
    ensures var blocks := PlannedBlocks(tasks, day, c, instant);
            var order := DayOrder(tasks, day, c, instant);
            && (0.0 <= c.maxMinutes ==> PlanFor(tasks, day, c, instant).totalPlannedHours * 60.0 <= c.maxMinutes)
            && (c.maxMinutes < 1.0 ==> blocks == [])
            && BlocksWithinDay(blocks, c) && BlocksSpaced(blocks, c)
            && |blocks| <= |order| && (forall k :: 0 <= k < |blocks| ==> blocks[k].task == order[k])
  {
    var order := DayOrder(tasks, day, c, instant);
    var slots := DaySlots(tasks, day, c, instant);
    if c.maxMinutes < 1.0 {
      if |order| > 0 {
        assert !Fits(order[0], c.workStart, 0, c);
      }
      assert slots == [];
      assert ToBlocks(slots) == [];
    } else {
      PlaceTasksWellPlaced(order, c.workStart, 0, c);
      SlotBlocks(slots, order, c);
    }
  }

  /** A task of the day is left unscheduled exactly when no block holds it. */
  lemma UnscheduledComplement(tasks: seq<Task>, day: string, c: Config, instant: string -> int)
    ensures var blocks := PlannedBlocks(tasks, day, c, instant);
            forall t :: t in PlanFor(tasks, day, c, instant).unscheduledTasks <==>
              t in FilterTasksForDay(tasks, day) && forall b :: b in blocks ==> b.task != t
  {
    var blocks := PlannedBlocks(tasks, day, c, instant);
    var scheduled := TasksOf(blocks);
    assert forall t :: t in scheduled <==> exists b :: b in blocks && b.task == t;
  }

  /** Placement stops at the first task in scheduling order that does not
      fit: it would overrun the capacity or the end of work. */
  lemma PlanStopsAtFirstMisfit(tasks: seq<Task>, day: string, c: Config, instant: string -> int)
    ensures var order := DayOrder(tasks, day, c, instant);
            var slots := DaySlots(tasks, day, c, instant);
            |slots| < |order| ==> !Fits(order[|slots|], NextCursor(slots, c.workStart, c), SumOf(slots, SlotMinutes), c)
  {
    PlaceTasksStops(DayOrder(tasks, day, c, instant), c.workStart, 0, c);
  }

  // ---------------------------------------------------------------------------
  // Task views
  // ---------------------------------------------------------------------------

  /** `filterByContext`: the tasks listing the context, in their order. */
  function FilterByContext(tasks: seq<Task>, context: string): (r: seq<Task>)
    ensures forall t :: t in r <==> t in tasks && context in t.contexts
  {
    Filter(tasks, (t: Task) => context in t.contexts)
  }

  /** `filterByEnergyLevel`: the tasks with exactly that energy level; a task
      without one matches no level. */
  function FilterByEnergyLevel(tasks: seq<Task>, level: Energy): (r: seq<Task>)
    ensures forall t :: t in r <==> t in tasks && t.energy == Some(level)
  {
    Filter(tasks, HasEnergy(level))
  }

  /** `filterByTimeOfDay`: the tasks preferring that time of day or any time. */
  function FilterByTimeOfDay(tasks: seq<Task>, timeOfDay: string): (r: seq<Task>)
    ensures forall t :: t in r <==> t in tasks && (t.timeOfDay == Some(timeOfDay) || t.timeOfDay == Some("anytime"))
  {
    Filter(tasks, (t: Task) => t.timeOfDay == Some(timeOfDay) || t.timeOfDay == Some("anytime"))
  }

  /** `getInboxTasks`: the tasks still waiting in the inbox. */
  function GetInboxTasks(tasks: seq<Task>): (r: seq<Task>)
    ensures forall t :: t in r <==> t in tasks && t.isInbox
  {
    Filter(tasks, (t: Task) => t.isInbox)
  }

  /** `getTodaysFocus`: `slice(0, maxTasks)` of today's tasks in scheduling
      order with the morning preference on, so a negative `maxTasks` drops
      that many tasks from the end. `today` is the caller's current date. */
  function GetTodaysFocus(tasks: seq<Task>, today: string, maxTasks: int, instant: string -> int): (r: seq<Task>)
    ensures var n := |FilterTasksForDay(tasks, today)|;
            && (0 <= maxTasks ==> |r| == if maxTasks < n then maxTasks else n)
            && (maxTasks < 0 ==> |r| == if n + maxTasks > 0 then n + maxTasks else 0)
    ensures forall t :: t in r ==> t in FilterTasksForDay(tasks, today)
    ensures r == SortForOptimalScheduling(FilterTasksForDay(tasks, today), true, instant)[..|r|]
  {
    var sorted := SortForOptimalScheduling(FilterTasksForDay(tasks, today), true, instant);
    var r := PyPrefix(sorted, maxTasks);
    assert forall t :: t in r ==> t in multiset(sorted);
    r
  }

  /** The number of focus tasks when the caller gives none. */
  const DefaultFocusTasks := 3

  /** `getTodaysFocus(tasks)` with the default of three tasks. */
  function GetDefaultTodaysFocus(tasks: seq<Task>, today: string, instant: string -> int): (r: seq<Task>)
    ensures |r| == if |FilterTasksForDay(tasks, today)| < 3 then |FilterTasksForDay(tasks, today)| else 3
    ensures r == SortForOptimalScheduling(FilterTasksForDay(tasks, today), true, instant)[..|r|]
  {
    GetTodaysFocus(tasks, today, DefaultFocusTasks, instant)
  }

  /** In a list sorted by descending priority, a task in a prefix has at
      least the priority of any task outside it. */
  lemma PrefixOutranks(sorted: seq<Task>, n: nat, x: Task, y: Task)
    requires n <= |sorted| && SortedBy(sorted, ByPriority())
    requires x in sorted[..n] && y in sorted && y !in sorted[..n]
    ensures PriorityRank(x.priority) >= PriorityRank(y.priority)
  {
    var i :| 0 <= i < n && sorted[..n][i] == x;
    var j :| 0 <= j < |sorted| && sorted[j] == y;
    assert forall k :: 0 <= k < n ==> sorted[k] in sorted[..n];
    assert sorted[i] == x && i < j;
    assert ByPriority()(sorted[i], sorted[j]);
  }

  /** No task of the day left out of the focus has a higher priority than one in it. */
  lemma FocusHasTopPriorities(tasks: seq<Task>, today: string, maxTasks: int, instant: string -> int)
    ensures var focus := GetTodaysFocus(tasks, today, maxTasks, instant);
            forall x, y :: x in focus && y in FilterTasksForDay(tasks, today) && y !in focus ==>
              PriorityRank(x.priority) >= PriorityRank(y.priority)
  {
    var dayTasks := FilterTasksForDay(tasks, today);
    var sorted := SortForOptimalScheduling(dayTasks, true, instant);
    var focus := GetTodaysFocus(tasks, today, maxTasks, instant);
    SortedForScheduling(dayTasks, true, instant);
    assert focus == sorted[..|focus|];
    forall x, y | x in focus && y in dayTasks && y !in focus
      ensures PriorityRank(x.priority) >= PriorityRank(y.priority)
    {
      assert y in multiset(sorted);
      PrefixOutranks(sorted, |focus|, x, y);
    }
  }

  predicate Unplaced(t: Task) {
    !Truthy(t.scheduledStart) && !Closed(t)
  }

  /** `suggestTimeBlocks`: plan the open tasks without a scheduled start and
      list the blocks morning first, then afternoon, then evening. */
  function SuggestTimeBlocks(tasks: seq<Task>, day: string, p: Preferences, instant: string -> int): (r: Option<seq<TimeBlock>>)
    ensures r.Some? <==> Configure(p).Some?
  {
    match CreateDailyPlan(Filter(tasks, Unplaced), day, p, instant)
    case None => None
    case Some(plan) => Some(plan.morningBlocks + plan.afternoonBlocks + plan.eveningBlocks)
  }

  /** Every suggested block holds an open, unscheduled task of the list that belongs to the day. */
  lemma SuggestedTasksOpen(tasks: seq<Task>, day: string, p: Preferences, instant: string -> int)
    ensures var r := SuggestTimeBlocks(tasks, day, p, instant);
            r.Some? ==> forall b :: b in r.value ==> b.task in tasks && Unplaced(b.task) && BelongsToDay(b.task, day)
  {
    var r := SuggestTimeBlocks(tasks, day, p, instant);
    if r.Some? {
      var open := Filter(tasks, Unplaced);
      var c := Configure(p).value;
      var blocks := PlannedBlocks(open, day, c, instant);
      var plan := PlanFor(open, day, c, instant);
      assert r.value == plan.morningBlocks + plan.afternoonBlocks + plan.eveningBlocks;
      forall b | b in r.value ensures b.task in tasks && Unplaced(b.task) && BelongsToDay(b.task, day) {
        assert b in blocks;
        assert b.task in FilterTasksForDay(open, day);
      }
    }
  }
}
