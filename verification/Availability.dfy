/**
 * The slot generator: a loop over days, ranges and minutes, filtered by the clock and the busy
 * intervals and cut at 500. Day starts come from an abstract calendar, so daylight saving stays open.
 */
module Availability {
  import opened Common
  import opened Bookings

  datatype TimeRange = TimeRange(start: string, end: string)
  datatype DaySchedule = DaySchedule(dayOfWeek: int, ranges: seq<TimeRange>)
  datatype Config = Config(slotDurationMin: int, bufferMin: int, isActive: bool, weekly: seq<DaySchedule>)

  /** The start of a local day of the provider, and its weekday with Sunday as 0. */
  datatype Day = Day(startMs: int, dayOfWeek: int)
  type Calendar = nat -> Day

  datatype Interval = Interval(startMs: int, endMs: int)

  /** The queried days: how many follow the first one, and the first and last millisecond. */
  datatype Window = Window(days: int, startMs: int, endMs: int)

  const MAX_SLOTS: nat := 500
  const MAX_DAYS := 14

  /** The bounds the schema puts on a stored configuration. */
  predicate ValidConfig(c: Config) { 15 <= c.slotDurationMin <= 240 && 0 <= c.bufferMin <= 120 }

  // ---- Parsing ----

  predicate IsDigit(c: char) { '0' <= c <= '9' }

  function Digit(c: char): (d: int)
    requires IsDigit(c)
    ensures 0 <= d <= 9
  {
    c as int - '0' as int
  }

  /** HH:mm to minutes of the day. */
  function HhmmToMinutes(s: string): (r: Result<int>)
    ensures r.Ok? ==> 0 <= r.value < 24 * 60
  {
    if |s| != 5 || !IsDigit(s[0]) || !IsDigit(s[1]) || s[2] != ':' || !IsDigit(s[3]) || !IsDigit(s[4])
    then Err(BadRequest)
    else
      var hh, mm := Digit(s[0]) * 10 + Digit(s[1]), Digit(s[3]) * 10 + Digit(s[4]);
      if hh > 23 || mm > 59 then Err(BadRequest) else Ok(hh * 60 + mm)
  }

  function ParseRange(r: TimeRange): (p: Result<(int, int)>)
    ensures p.Ok? ==> 0 <= p.value.0 < p.value.1 < 24 * 60
  {
    var start, end := HhmmToMinutes(r.start), HhmmToMinutes(r.end);
    if start.Err? then Err(start.error)
    else if end.Err? then Err(end.error)
    else if end.value <= start.value then Err(BadRequest)
    else Ok((start.value, end.value))
  }

  // ---- The specification ----

  function SlotAt(dayStart: int, m: int, duration: int): Slot {
    Slot(dayStart + m * MINUTE_MS, dayStart + m * MINUTE_MS + duration * MINUTE_MS)
  }

  predicate Intersects(slot: Slot, busy: seq<Interval>) {
    exists b | b in busy :: slot.startAt < b.endMs && slot.endAt > b.startMs
  }

  /** A slot is offered when it ends after now and misses every busy interval. */
  predicate Keep(slot: Slot, now: int, busy: seq<Interval>) {
    slot.endAt > now && !Intersects(slot, busy)
  }

  /** The ranges of the first schedule of a weekday. */
  function RangesOf(weekly: seq<DaySchedule>, dayOfWeek: int): seq<TimeRange> {
    if weekly == [] then []
    else if weekly[0].dayOfWeek == dayOfWeek then weekly[0].ranges
    else RangesOf(weekly[1..], dayOfWeek)
  }

  datatype Job = Job(dayStart: int, range: TimeRange)

  function JobsOfDay(dayStart: int, ranges: seq<TimeRange>): seq<Job> {
    seq(|ranges|, i requires 0 <= i < |ranges| => Job(dayStart, ranges[i]))
  }

  /** The ranges of days `from` to `days` in loop order. */
  function Jobs(c: Config, calendar: Calendar, from: nat, days: int): seq<Job>
    decreases days - from + 1
  {
    if from > days then []
    else
      JobsOfDay(calendar(from).startMs, RangesOf(c.weekly, calendar(from).dayOfWeek))
      + Jobs(c, calendar, from + 1, days)
  }

  datatype Clock = Clock(now: int, busy: seq<Interval>)

  /** The offered slots of one range from minute `m` on. */
  function Grid(c: Config, clock: Clock, dayStart: int, m: int, endMin: int): seq<Slot>
    requires ValidConfig(c)
    decreases endMin - m
  {
    if m + c.slotDurationMin > endMin then []
    else
      var slot := SlotAt(dayStart, m, c.slotDurationMin);
      var rest := Grid(c, clock, dayStart, m + c.slotDurationMin + c.bufferMin, endMin);
      if Keep(slot, clock.now, clock.busy) then [slot] + rest else rest
  }

  /** All offered slots up to the first malformed range, and whether there is one. */
  datatype Emission = Emission(slots: seq<Slot>, malformed: bool)

  function Emit(c: Config, clock: Clock, jobs: seq<Job>): Emission
    requires ValidConfig(c)
    decreases |jobs|
  {
    if jobs == [] then Emission([], false)
    else
      var range := ParseRange(jobs[0].range);
      if range.Err? then Emission([], true)
      else
        var rest := Emit(c, clock, jobs[1..]);
        Emission(Grid(c, clock, jobs[0].dayStart, range.value.0, range.value.1) + rest.slots, rest.malformed)
  }

  /** The first 500 slots win over a malformed range that comes later. */
  function Cut(e: Emission): Result<seq<Slot>> {
    if |e.slots| >= MAX_SLOTS then Ok(e.slots[..MAX_SLOTS])
    else if e.malformed then Err(BadRequest)
    else Ok(e.slots)
  }

  predicate InWindow(b: Interval, w: Window) { b.startMs <= w.endMs && b.endMs >= w.startMs }

  /** The busy intervals the two queries fetch. */
  function Fetched(busy: seq<Interval>, w: Window): seq<Interval> {
    if busy == [] then []
    else if InWindow(busy[0], w) then [busy[0]] + Fetched(busy[1..], w)
    else Fetched(busy[1..], w)
  }

  predicate Answers(stored: Option<Config>) { stored.Some? && stored.value.isActive }

  function Slots(stored: Option<Config>, w: Window, calendar: Calendar, busy: seq<Interval>,
                 now: int): Result<seq<Slot>>
    requires stored.Some? ==> ValidConfig(stored.value)
  {
    if !Answers(stored) then Ok([])
    else if w.days < 0 || w.days > MAX_DAYS then Err(BadRequest)
    else Cut(Emit(stored.value, Clock(now, Fetched(busy, w)), Jobs(stored.value, calendar, 0, w.days)))
  }

  // ---- The generator ----

  method FindSchedule(weekly: seq<DaySchedule>, dayOfWeek: int) returns (ranges: seq<TimeRange>)
    ensures ranges == RangesOf(weekly, dayOfWeek)
  {
    for i := 0 to |weekly|
      invariant RangesOf(weekly, dayOfWeek) == RangesOf(weekly[i..], dayOfWeek)
    {
      if weekly[i].dayOfWeek == dayOfWeek { return weekly[i].ranges; }
    }
    return [];
  }

  method IntersectsAny(slot: Slot, busy: seq<Interval>) returns (hit: bool)
    ensures hit == Intersects(slot, busy)
  {
    for i := 0 to |busy|
      invariant forall k | 0 <= k < i :: !(slot.startAt < busy[k].endMs && slot.endAt > busy[k].startMs)
    {
      if slot.startAt < busy[i].endMs && slot.endAt > busy[i].startMs { return true; }
    }
    return false;
  }

  ghost function Then(slots: seq<Slot>, e: Emission): Emission { Emission(slots + e.slots, e.malformed) }

  lemma ThenNothing(e: Emission)
    ensures Then([], e) == e
  {
    assert [] + e.slots == e.slots;
  }

  method GetSlots(stored: Option<Config>, w: Window, calendar: Calendar, busy: seq<Interval>, now: int)
    returns (r: Result<seq<Slot>>)
    requires stored.Some? ==> ValidConfig(stored.value)
    ensures r == Slots(stored, w, calendar, busy, now)
  {
    if stored.None? || !stored.value.isActive { return Ok([]); }
    var c := stored.value;
    if w.days < 0 { return Err(BadRequest); }
    if w.days > MAX_DAYS { return Err(BadRequest); }
    r := Generate(c, Clock(now, Fetched(busy, w)), calendar, w.days);
  }

  /** The loop over the days. */
  method Generate(c: Config, clock: Clock, calendar: Calendar, days: int) returns (r: Result<seq<Slot>>)
    requires ValidConfig(c) && days >= 0
    ensures r == Cut(Emit(c, clock, Jobs(c, calendar, 0, days)))
  {
    ghost var whole := Emit(c, clock, Jobs(c, calendar, 0, days));
    var slots: seq<Slot> := [];
    ThenNothing(whole);
    var i := 0;
    while i <= days
      invariant 0 <= i <= days + 1 && |slots| < MAX_SLOTS
      invariant whole == Then(slots, Emit(c, clock, Jobs(c, calendar, i, days)))
      decreases days - i
    {
      var day := calendar(i);
      var ranges := FindSchedule(c.weekly, day.dayOfWeek);
      ghost var later := Jobs(c, calendar, i + 1, days);
      var done: bool;
      slots, done, r := AddDay(c, clock, day.startMs, ranges, slots, later, whole);
      if done { return; }
      i := i + 1;
    }
    assert slots + [] == slots;
    return Ok(slots);
  }

  /** The loop over the ranges of one day. */
  method AddDay(c: Config, clock: Clock, dayStart: int, ranges: seq<TimeRange>, sofar: seq<Slot>,
                ghost later: seq<Job>, ghost whole: Emission)
    returns (slots: seq<Slot>, done: bool, r: Result<seq<Slot>>)
    requires ValidConfig(c) && |sofar| < MAX_SLOTS
    requires whole == Then(sofar, Emit(c, clock, JobsOfDay(dayStart, ranges) + later))
    ensures done ==> r == Cut(whole)
    ensures !done ==> |slots| < MAX_SLOTS && whole == Then(slots, Emit(c, clock, later))
  {
    slots, done, r := sofar, false, Err(BadRequest);
    ghost var jobs := JobsOfDay(dayStart, ranges);
    for j := 0 to |ranges|
      invariant |slots| < MAX_SLOTS && !done
      invariant whole == Then(slots, Emit(c, clock, jobs[j..] + later))
    {
      ghost var rest := Emit(c, clock, jobs[j + 1..] + later);
      assert (jobs[j..] + later)[0] == Job(dayStart, ranges[j]);
      assert (jobs[j..] + later)[1..] == jobs[j + 1..] + later;
      var range := ParseRange(ranges[j]);
      if range.Err? {
        assert slots + [] == slots;
        return slots, true, Err(BadRequest);
      }
      var grid: seq<Slot>, full: bool := [], false;
      slots, full := AddRange(c, clock, dayStart, range.value.0, range.value.1, slots, rest, whole);
      if full { return slots, true, Ok(slots); }
    }
    assert jobs[|ranges|..] + later == later;
  }

  /** The loop over the minutes of one range. */
  method AddRange(c: Config, clock: Clock, dayStart: int, startMin: int, endMin: int, sofar: seq<Slot>,
                  ghost rest: Emission, ghost whole: Emission)
    returns (slots: seq<Slot>, full: bool)
    requires ValidConfig(c) && |sofar| < MAX_SLOTS
    requires whole == Then(sofar, Then(Grid(c, clock, dayStart, startMin, endMin), rest))
    ensures full ==> Cut(whole) == Ok(slots)
    ensures !full ==> |slots| < MAX_SLOTS && whole == Then(slots, rest)
  {
    slots, full := sofar, false;
    var m := startMin;
    while m + c.slotDurationMin <= endMin
      invariant |slots| < MAX_SLOTS
      invariant whole == Then(slots, Then(Grid(c, clock, dayStart, m, endMin), rest))
      decreases endMin - m
    {
      var slot := SlotAt(dayStart, m, c.slotDurationMin);
      m := m + c.slotDurationMin + c.bufferMin;
      if slot.endAt <= clock.now { continue; }
      var hit := IntersectsAny(slot, clock.busy);
      if hit { continue; }
      ghost var more := Grid(c, clock, dayStart, m, endMin);
      assert slots + (([slot] + more) + rest.slots) == (slots + [slot]) + (more + rest.slots);
      slots := slots + [slot];
      if |slots| >= MAX_SLOTS {
        assert whole.slots[..MAX_SLOTS] == slots;
        return slots, true;
      }
    }
    assert [] + rest.slots == rest.slots;
  }

  // ---- What the specification means ----

  /** The minute `m` starts a slot of the grid of [startMin, endMin). */
  ghost predicate OnGrid(c: Config, startMin: int, endMin: int, m: int, k: nat) {
    m == startMin + k * (c.slotDurationMin + c.bufferMin) && m + c.slotDurationMin <= endMin
  }

  lemma GridShift(c: Config, m: int, m': int, endMin: int, n: int, k: nat)
    requires m' == m + c.slotDurationMin + c.bufferMin
    ensures OnGrid(c, m', endMin, n, k) <==> OnGrid(c, m, endMin, n, k + 1)
  {
    var step := c.slotDurationMin + c.bufferMin;
    assert (k + 1) * step == k * step + step;
  }

  lemma {:induction false} GridSound(c: Config, clock: Clock, dayStart: int, m: int, endMin: int, slot: Slot)
    returns (n: int, k: nat)
    requires ValidConfig(c) && slot in Grid(c, clock, dayStart, m, endMin)
    ensures Keep(slot, clock.now, clock.busy)
    ensures OnGrid(c, m, endMin, n, k) && slot == SlotAt(dayStart, n, c.slotDurationMin)
    decreases endMin - m
  {
    var m' := m + c.slotDurationMin + c.bufferMin;
    if slot in Grid(c, clock, dayStart, m', endMin) {
      n, k := GridSound(c, clock, dayStart, m', endMin, slot);
      GridShift(c, m, m', endMin, n, k);
      k := k + 1;
    } else {
      n, k := m, 0;
    }
  }

  lemma {:induction false} GridComplete(
    c: Config, clock: Clock, dayStart: int, m: int, endMin: int, n: int, k: nat)
    requires ValidConfig(c) && OnGrid(c, m, endMin, n, k)
    requires Keep(SlotAt(dayStart, n, c.slotDurationMin), clock.now, clock.busy)
    ensures SlotAt(dayStart, n, c.slotDurationMin) in Grid(c, clock, dayStart, m, endMin)
    decreases k
  {
    if k > 0 {
      var m' := m + c.slotDurationMin + c.bufferMin;
      GridShift(c, m, m', endMin, n, k - 1);
      GridComplete(c, clock, dayStart, m', endMin, n, k - 1);
      GridAhead(c, m', endMin, n, k - 1);
    }
  }

  /** Grid minutes never lie before the start of the range. */
  lemma GridAhead(c: Config, m: int, endMin: int, n: int, k: nat)
    requires ValidConfig(c) && OnGrid(c, m, endMin, n, k)
    ensures m <= n && m + c.slotDurationMin <= endMin
  {
    assert k * (c.slotDurationMin + c.bufferMin) >= 0;
  }

  /** `slot` is a grid interval of the range of `job`. */
  ghost predicate SlotOfJob(c: Config, job: Job, slot: Slot) {
    ParseRange(job.range).Ok?
    && exists n, k: nat ::
         OnGrid(c, ParseRange(job.range).value.0, ParseRange(job.range).value.1, n, k)
         && slot == SlotAt(job.dayStart, n, c.slotDurationMin)
  }

  ghost predicate WellFormed(jobs: seq<Job>) { forall j | j in jobs :: ParseRange(j.range).Ok? }

  lemma {:induction false} EmitMembers(c: Config, clock: Clock, jobs: seq<Job>, slot: Slot)
    requires ValidConfig(c) && WellFormed(jobs)
    ensures !Emit(c, clock, jobs).malformed
    ensures slot in Emit(c, clock, jobs).slots <==>
      Keep(slot, clock.now, clock.busy) && exists j | j in jobs :: SlotOfJob(c, j, slot)
    decreases |jobs|
  {
    if jobs != [] {
      EmitMembers(c, clock, jobs[1..], slot);
      var day, range := jobs[0].dayStart, ParseRange(jobs[0].range).value;
      assert jobs == [jobs[0]] + jobs[1..];
      if slot in Grid(c, clock, day, range.0, range.1) {
        var n, k := GridSound(c, clock, day, range.0, range.1, slot);
      }
      if SlotOfJob(c, jobs[0], slot) && Keep(slot, clock.now, clock.busy) {
        var n, k: nat :| OnGrid(c, range.0, range.1, n, k) && slot == SlotAt(day, n, c.slotDurationMin);
        GridComplete(c, clock, day, range.0, range.1, n, k);
      }
    }
  }

  lemma {:induction false} JobMembers(c: Config, calendar: Calendar, from: nat, days: int, j: Job)
    ensures j in Jobs(c, calendar, from, days) <==>
      exists i: nat | from <= i <= days ::
        j.dayStart == calendar(i).startMs && j.range in RangesOf(c.weekly, calendar(i).dayOfWeek)
    decreases days - from + 1
  {
    if from <= days {
      JobMembers(c, calendar, from + 1, days, j);
      var ranges := RangesOf(c.weekly, calendar(from).dayOfWeek);
      var today := JobsOfDay(calendar(from).startMs, ranges);
      if j.dayStart == calendar(from).startMs && j.range in ranges {
        var k :| 0 <= k < |ranges| && ranges[k] == j.range;
        assert today[k] == j;
      }
    }
  }

  /** Some day of the window has a range whose grid contains the slot. */
  ghost predicate Scheduled(c: Config, w: Window, calendar: Calendar, slot: Slot) {
    exists i: nat, range | 0 <= i <= w.days && range in RangesOf(c.weekly, calendar(i).dayOfWeek) ::
      SlotOfJob(c, Job(calendar(i).startMs, range), slot)
  }

  /**
   * On well-formed schedules the answer is exactly the scheduled slots that end after now and miss every
   * fetched busy interval; when there are more than 500, it is the first 500 in loop order.
   */
  lemma SlotsExact(c: Config, w: Window, calendar: Calendar, busy: seq<Interval>, now: int)
    requires ValidConfig(c) && c.isActive && 0 <= w.days <= MAX_DAYS
    requires WellFormed(Jobs(c, calendar, 0, w.days))
    ensures var all := Emit(c, Clock(now, Fetched(busy, w)), Jobs(c, calendar, 0, w.days)).slots;
      && Slots(Some(c), w, calendar, busy, now) == Ok(all[..Min(|all|, MAX_SLOTS)])
      && forall slot :: slot in all <==> Keep(slot, now, Fetched(busy, w)) && Scheduled(c, w, calendar, slot)
  {
    var jobs, clock := Jobs(c, calendar, 0, w.days), Clock(now, Fetched(busy, w));
    var all := Emit(c, clock, jobs).slots;
    forall slot ensures slot in all <==> Keep(slot, now, clock.busy) && Scheduled(c, w, calendar, slot) {
      EmitMembers(c, clock, jobs, slot);
      if j :| j in jobs && SlotOfJob(c, j, slot) {
        JobMembers(c, calendar, 0, w.days, j);
      }
      if Scheduled(c, w, calendar, slot) {
        var i: nat, range :| 0 <= i <= w.days && range in RangesOf(c.weekly, calendar(i).dayOfWeek)
          && SlotOfJob(c, Job(calendar(i).startMs, range), slot);
        JobMembers(c, calendar, 0, w.days, Job(calendar(i).startMs, range));
      }
    }
    EmitMembers(c, clock, jobs, Slot(0, 0));
    if |all| <= MAX_SLOTS { assert all[..|all|] == all; }
  }

  /** The check every stored weekly schedule passed. */
  predicate ValidWeekly(weekly: seq<DaySchedule>) {
    forall d | d in weekly :: 0 <= d.dayOfWeek <= 6 && forall r | r in d.ranges :: ParseRange(r).Ok?
  }

  /** Hence the generator never meets a malformed range in a validated schedule. */
  lemma ValidatedIsWellFormed(c: Config, calendar: Calendar, days: int)
    requires ValidWeekly(c.weekly)
    ensures WellFormed(Jobs(c, calendar, 0, days))
  {
    forall j | j in Jobs(c, calendar, 0, days) ensures ParseRange(j.range).Ok? {
      JobMembers(c, calendar, 0, days, j);
      var i: nat :| 0 <= i <= days && j.range in RangesOf(c.weekly, calendar(i).dayOfWeek);
      RangesStored(c.weekly, calendar(i).dayOfWeek);
    }
  }

  lemma {:induction false} RangesStored(weekly: seq<DaySchedule>, dayOfWeek: int)
    ensures RangesOf(weekly, dayOfWeek) == []
      || exists d | d in weekly :: d.dayOfWeek == dayOfWeek && d.ranges == RangesOf(weekly, dayOfWeek)
  {
    if weekly != [] {
      if weekly[0].dayOfWeek == dayOfWeek {
        assert weekly[0] in weekly;
      } else {
        RangesStored(weekly[1..], dayOfWeek);
      }
    }
  }

  // ---- The window of the busy queries ----

  lemma {:induction false} FetchedMembers(busy: seq<Interval>, w: Window, b: Interval)
    ensures b in Fetched(busy, w) <==> b in busy && InWindow(b, w)
  {
    if busy != [] {
      FetchedMembers(busy[1..], w, b);
      assert busy == [busy[0]] + busy[1..];
    }
  }

  predicate Inside(slot: Slot, w: Window) { w.startMs <= slot.startAt && slot.endAt <= w.endMs + 1 }

  /** For a slot inside the window, the fetched intervals block it exactly when some interval does. */
  lemma WindowSuffices(busy: seq<Interval>, w: Window, slot: Slot)
    requires Inside(slot, w)
    ensures Intersects(slot, Fetched(busy, w)) == Intersects(slot, busy)
  {
    forall b ensures b in Fetched(busy, w) <==> b in busy && InWindow(b, w) {
      FetchedMembers(busy, w, b);
    }
  }

  /** Query zone and provider zone agree and every day of the window has at least 24 hours. */
  ghost predicate PlainDays(w: Window, calendar: Calendar) {
    && w.startMs == calendar(0).startMs
    && (forall i: nat | i <= w.days :: calendar(i).startMs + 24 * HOUR_MS <= calendar(i + 1).startMs)
    && w.days >= 0 && w.endMs == calendar(w.days + 1).startMs - 1
  }

  lemma {:induction false} DaysAscend(w: Window, calendar: Calendar, i: nat, j: nat)
    requires PlainDays(w, calendar) && i <= j <= w.days + 1
    ensures calendar(i).startMs <= calendar(j).startMs
    decreases j - i
  {
    if i < j {
      assert calendar(i).startMs + 24 * HOUR_MS <= calendar(i + 1).startMs;
      DaysAscend(w, calendar, i + 1, j);
    }
  }

  lemma DayInside(w: Window, calendar: Calendar, i: nat)
    requires PlainDays(w, calendar) && i <= w.days
    ensures w.startMs <= calendar(i).startMs && calendar(i).startMs + 24 * HOUR_MS <= w.endMs + 1
  {
    DaysAscend(w, calendar, 0, i);
    DaysAscend(w, calendar, i + 1, w.days + 1);
  }

  /** An offered slot inside the window ends after now and meets no busy interval, fetched or not. */
  lemma OfferedInsideMissesBusy(c: Config, w: Window, calendar: Calendar, busy: seq<Interval>, now: int, slot: Slot)
    requires ValidConfig(c) && c.isActive && 0 <= w.days <= MAX_DAYS && Inside(slot, w)
    requires WellFormed(Jobs(c, calendar, 0, w.days))
    requires Slots(Some(c), w, calendar, busy, now).Ok? && slot in Slots(Some(c), w, calendar, busy, now).value
    ensures slot.endAt > now && !Intersects(slot, busy) && Scheduled(c, w, calendar, slot)
  {
    SlotsExact(c, w, calendar, busy, now);
    var all := Emit(c, Clock(now, Fetched(busy, w)), Jobs(c, calendar, 0, w.days)).slots;
    assert slot in all;
    WindowSuffices(busy, w, slot);
  }

  /** Two busy lists that agree on the grid minutes from `m` on give the same slots. */
  lemma {:induction false} GridSame(c: Config, now: int, some: seq<Interval>, every: seq<Interval>,
                                    dayStart: int, m: int, endMin: int)
    requires ValidConfig(c)
    requires forall n | m <= n && n + c.slotDurationMin <= endMin ::
      Intersects(SlotAt(dayStart, n, c.slotDurationMin), some)
      == Intersects(SlotAt(dayStart, n, c.slotDurationMin), every)
    ensures Grid(c, Clock(now, some), dayStart, m, endMin) == Grid(c, Clock(now, every), dayStart, m, endMin)
    decreases endMin - m
  {
    if m + c.slotDurationMin <= endMin {
      GridSame(c, now, some, every, dayStart, m + c.slotDurationMin + c.bufferMin, endMin);
    }
  }

  lemma {:induction false} EmitSame(c: Config, now: int, busy: seq<Interval>, w: Window, jobs: seq<Job>)
    requires ValidConfig(c)
    requires forall j | j in jobs :: w.startMs <= j.dayStart && j.dayStart + 24 * HOUR_MS <= w.endMs + 1
    ensures Emit(c, Clock(now, Fetched(busy, w)), jobs) == Emit(c, Clock(now, busy), jobs)
    decreases |jobs|
  {
    if jobs != [] && ParseRange(jobs[0].range).Ok? {
      var range := ParseRange(jobs[0].range).value;
      forall n | range.0 <= n && n + c.slotDurationMin <= range.1
        ensures Intersects(SlotAt(jobs[0].dayStart, n, c.slotDurationMin), Fetched(busy, w))
             == Intersects(SlotAt(jobs[0].dayStart, n, c.slotDurationMin), busy)
      {
        WindowSuffices(busy, w, SlotAt(jobs[0].dayStart, n, c.slotDurationMin));
      }
      GridSame(c, now, Fetched(busy, w), busy, jobs[0].dayStart, range.0, range.1);
      EmitSame(c, now, busy, w, jobs[1..]);
    }
  }

  /** On plain days filtering the busy intervals by the window changes nothing: the answer is that of the full list. */
  lemma WindowTransparent(c: Config, w: Window, calendar: Calendar, busy: seq<Interval>, now: int)
    requires ValidConfig(c) && c.isActive && w.days <= MAX_DAYS && PlainDays(w, calendar)
    ensures Slots(Some(c), w, calendar, busy, now) == Cut(Emit(c, Clock(now, busy), Jobs(c, calendar, 0, w.days)))
  {
    var jobs := Jobs(c, calendar, 0, w.days);
    forall j | j in jobs ensures w.startMs <= j.dayStart && j.dayStart + 24 * HOUR_MS <= w.endMs + 1 {
      JobMembers(c, calendar, 0, w.days, j);
      var i: nat :| 0 <= i <= w.days && j.dayStart == calendar(i).startMs;
      DayInside(w, calendar, i);
    }
    EmitSame(c, now, busy, w, jobs);
  }
}
