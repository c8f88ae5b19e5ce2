/**
 * The order in which the generator answers: each offered slot once, by day, range and grid step; hence in
 * order of time where days and ranges are, so that the limit keeps the earliest.
 */
module SlotOrder {
  import opened Common
  import opened Bookings
  import opened Availability

  /**
   * Where a slot comes from: its day, the stored schedule of that weekday, the range in it and the step on the
   * range's grid.
   */
  datatype Origin = Origin(day: nat, entry: nat, range: nat, step: nat)

  predicate Before(a: Origin, b: Origin) {
    || a.day < b.day
    || (a.day == b.day && a.range < b.range)
    || (a.day == b.day && a.range == b.range && a.step < b.step)
  }

  /** Entry `k` of the stored week is the first for the weekday, wherever it stands. */
  ghost predicate FirstEntry(weekly: seq<DaySchedule>, dayOfWeek: int, k: nat) {
    k < |weekly| && weekly[k].dayOfWeek == dayOfWeek && forall j | 0 <= j < k :: weekly[j].dayOfWeek != dayOfWeek
  }

  /** The generator finds the ranges of that entry, and none only if no entry is for the weekday. */
  lemma {:induction false} RangesFound(weekly: seq<DaySchedule>, dayOfWeek: int)
    ensures forall k: nat | FirstEntry(weekly, dayOfWeek, k) :: RangesOf(weekly, dayOfWeek) == weekly[k].ranges
    ensures (forall j | 0 <= j < |weekly| :: weekly[j].dayOfWeek != dayOfWeek) ==> RangesOf(weekly, dayOfWeek) == []
    ensures (exists k: nat :: FirstEntry(weekly, dayOfWeek, k))
         || (forall j | 0 <= j < |weekly| :: weekly[j].dayOfWeek != dayOfWeek)
  {
    if weekly != [] {
      var rest := weekly[1..];
      RangesFound(rest, dayOfWeek);
      if weekly[0].dayOfWeek == dayOfWeek {
        assert FirstEntry(weekly, dayOfWeek, 0);
      } else {
        forall k: nat | FirstEntry(weekly, dayOfWeek, k) ensures FirstEntry(rest, dayOfWeek, k - 1) {
          assert forall j | 0 <= j < |rest| :: rest[j] == weekly[j + 1];
        }
        if k: nat :| FirstEntry(rest, dayOfWeek, k) {
          var here := k + 1;
          assert FirstEntry(weekly, dayOfWeek, here);
        }
      }
    }
  }

  function RangesOn(c: Config, calendar: Calendar, day: nat): seq<TimeRange> {
    RangesOf(c.weekly, calendar(day).dayOfWeek)
  }

  /** The minutes of the origin's range. */
  function RangeAt(c: Config, o: Origin): Result<(int, int)> {
    if o.entry < |c.weekly| && o.range < |c.weekly[o.entry].ranges|
    then ParseRange(c.weekly[o.entry].ranges[o.range])
    else Err(NotFound)
  }

  function MinuteAt(c: Config, m: int, step: nat): int { m + step * (c.slotDurationMin + c.bufferMin) }

  function SlotOf(c: Config, calendar: Calendar, o: Origin): Slot
    requires RangeAt(c, o).Ok?
  {
    var start := calendar(o.day).startMs + MinuteAt(c, RangeAt(c, o).value.0, o.step) * 60_000;
    Slot(start, start + c.slotDurationMin * 60_000)
  }

  /** The origin is on the grid of a range that is in force on its day, and its slot is offered. */
  ghost predicate Offers(c: Config, calendar: Calendar, clock: Clock, o: Origin) {
    && FirstEntry(c.weekly, calendar(o.day).dayOfWeek, o.entry)
    && RangeAt(c, o).Ok?
    && MinuteAt(c, RangeAt(c, o).value.0, o.step) + c.slotDurationMin <= RangeAt(c, o).value.1
    && Keep(SlotOf(c, calendar, o), clock.now, clock.busy)
  }

  /** `slots` are the slots of `origins`, each origin once and in ascending order. */
  ghost predicate Lists(c: Config, calendar: Calendar, slots: seq<Slot>, at: seq<Origin>, origins: iset<Origin>) {
    && |slots| == |at|
    && (forall p | 0 <= p < |at| ::
          at[p] in origins && RangeAt(c, at[p]).Ok? && slots[p] == SlotOf(c, calendar, at[p]))
    && (forall p, q | 0 <= p < q < |at| :: Before(at[p], at[q]))
    && (forall o | o in origins :: o in at)
  }

  lemma JoinLists(c: Config, calendar: Calendar, slots: seq<Slot>, at: seq<Origin>, origins: iset<Origin>,
                  slots': seq<Slot>, at': seq<Origin>, origins': iset<Origin>)
    requires Lists(c, calendar, slots, at, origins) && Lists(c, calendar, slots', at', origins')
    requires forall o, o' | o in origins && o' in origins' :: Before(o, o')
    ensures Lists(c, calendar, slots + slots', at + at', origins + origins')
  {
    var all := at + at';
    forall p | 0 <= p < |all| ensures all[p] in origins + origins' && RangeAt(c, all[p]).Ok?
                              && (slots + slots')[p] == SlotOf(c, calendar, all[p])
    {
      if p < |at| { assert all[p] == at[p]; } else { assert all[p] == at'[p - |at|]; }
    }
    forall p, q | 0 <= p < q < |all| ensures Before(all[p], all[q]) {
      if p < |at| { assert all[p] == at[p]; } else { assert all[p] == at'[p - |at|]; }
      if q < |at| { assert all[q] == at[q]; } else { assert all[q] == at'[q - |at|]; }
    }
  }

  // ---- One range ----

  /** The offered origins of a range from the grid step `from` on. */
  ghost function StepsFrom(c: Config, calendar: Calendar, clock: Clock, day: nat, range: nat, from: nat): iset<Origin> {
    iset o: Origin | o.day == day && o.range == range && o.step >= from && Offers(c, calendar, clock, o)
  }

  lemma MinuteStep(c: Config, m: int, step: nat)
    ensures MinuteAt(c, m, step + 1) == MinuteAt(c, m, step) + c.slotDurationMin + c.bufferMin
  {
  }

  lemma MinuteMonotone(c: Config, m: int, a: nat, b: nat)
    requires ValidConfig(c) && a < b
    ensures MinuteAt(c, m, a) + c.slotDurationMin <= MinuteAt(c, m, b)
    decreases b - a
  {
    MinuteStep(c, m, a);
    if a + 1 < b { MinuteMonotone(c, m, a + 1, b); }
  }

  lemma NoStepsLeft(c: Config, calendar: Calendar, clock: Clock, first: Origin)
    requires ValidConfig(c) && RangeAt(c, first).Ok? && FirstEntry(c.weekly, calendar(first.day).dayOfWeek, first.entry)
    requires MinuteAt(c, RangeAt(c, first).value.0, first.step) + c.slotDurationMin > RangeAt(c, first).value.1
    ensures StepsFrom(c, calendar, clock, first.day, first.range, first.step) == iset{}
  {
    forall o | o in StepsFrom(c, calendar, clock, first.day, first.range, first.step) ensures false {
      assert o.entry == first.entry;
      if o.step > first.step { MinuteMonotone(c, RangeAt(c, first).value.0, first.step, o.step); }
    }
  }

  lemma StepsSplit(c: Config, calendar: Calendar, clock: Clock, first: Origin)
    requires FirstEntry(c.weekly, calendar(first.day).dayOfWeek, first.entry)
    ensures StepsFrom(c, calendar, clock, first.day, first.range, first.step)
         == (if Offers(c, calendar, clock, first) then iset{first} else iset{})
            + StepsFrom(c, calendar, clock, first.day, first.range, first.step + 1)
  {
  }

  lemma OneListed(c: Config, calendar: Calendar, o: Origin)
    requires RangeAt(c, o).Ok?
    ensures Lists(c, calendar, [SlotOf(c, calendar, o)], [o], iset{o})
  {
  }

  lemma GridStep(c: Config, calendar: Calendar, clock: Clock, first: Origin)
    requires ValidConfig(c) && RangeAt(c, first).Ok? && FirstEntry(c.weekly, calendar(first.day).dayOfWeek, first.entry)
    requires MinuteAt(c, RangeAt(c, first).value.0, first.step) + c.slotDurationMin <= RangeAt(c, first).value.1
    ensures var (from, to) := RangeAt(c, first).value;
      var start := calendar(first.day).startMs;
      Grid(c, clock, start, MinuteAt(c, from, first.step), to)
      == (if Offers(c, calendar, clock, first) then [SlotOf(c, calendar, first)] else [])
         + Grid(c, clock, start, MinuteAt(c, from, first.step + 1), to)
  {
    MinuteStep(c, RangeAt(c, first).value.0, first.step);
  }

  lemma {:induction false} GridLists(c: Config, calendar: Calendar, clock: Clock, first: Origin)
    returns (at: seq<Origin>)
    requires ValidConfig(c) && RangeAt(c, first).Ok? && FirstEntry(c.weekly, calendar(first.day).dayOfWeek, first.entry)
    ensures var minutes := RangeAt(c, first).value;
      Lists(c, calendar, Grid(c, clock, calendar(first.day).startMs, MinuteAt(c, minutes.0, first.step), minutes.1), at,
            StepsFrom(c, calendar, clock, first.day, first.range, first.step))
    decreases RangeAt(c, first).value.1 - MinuteAt(c, RangeAt(c, first).value.0, first.step)
  {
    var minutes, start := RangeAt(c, first).value, calendar(first.day).startMs;
    if MinuteAt(c, minutes.0, first.step) + c.slotDurationMin > minutes.1 {
      at := [];
      NoStepsLeft(c, calendar, clock, first);
    } else {
      MinuteStep(c, minutes.0, first.step);
      var second := first.(step := first.step + 1);
      at := GridLists(c, calendar, clock, second);
      GridStep(c, calendar, clock, first);
      StepsSplit(c, calendar, clock, first);
      if Offers(c, calendar, clock, first) {
        OneListed(c, calendar, first);
        JoinLists(c, calendar, [SlotOf(c, calendar, first)], [first], iset{first},
                  Grid(c, clock, start, MinuteAt(c, minutes.0, second.step), minutes.1), at,
                  StepsFrom(c, calendar, clock, first.day, first.range, second.step));
        at := [first] + at;
      } else {
        assert [] + Grid(c, clock, start, MinuteAt(c, minutes.0, second.step), minutes.1)
            == Grid(c, clock, start, MinuteAt(c, minutes.0, second.step), minutes.1);
        assert iset{} + StepsFrom(c, calendar, clock, first.day, first.range, second.step)
            == StepsFrom(c, calendar, clock, first.day, first.range, second.step);
      }
    }
  }

  // ---- One day, all days ----

  lemma {:induction false} EmitAppends(c: Config, clock: Clock, jobs: seq<Job>, more: seq<Job>)
    requires ValidConfig(c) && WellFormed(jobs) && WellFormed(more)
    ensures Emit(c, clock, jobs + more).slots == Emit(c, clock, jobs).slots + Emit(c, clock, more).slots
    decreases |jobs|
  {
    if jobs == [] {
      assert jobs + more == more;
    } else {
      assert (jobs + more)[0] == jobs[0] && (jobs + more)[1..] == jobs[1..] + more;
      EmitAppends(c, clock, jobs[1..], more);
    }
  }

  ghost function RangesFrom(c: Config, calendar: Calendar, clock: Clock, day: nat, from: nat): iset<Origin> {
    iset o: Origin | o.day == day && o.range >= from && Offers(c, calendar, clock, o)
  }

  lemma {:induction false} DayLists(c: Config, calendar: Calendar, clock: Clock, day: nat, entry: nat, from: nat)
    returns (at: seq<Origin>)
    requires ValidConfig(c) && FirstEntry(c.weekly, calendar(day).dayOfWeek, entry)
    requires RangesOn(c, calendar, day) == c.weekly[entry].ranges && from <= |RangesOn(c, calendar, day)|
    requires WellFormed(JobsOfDay(calendar(day).startMs, RangesOn(c, calendar, day)))
    ensures var jobs := JobsOfDay(calendar(day).startMs, RangesOn(c, calendar, day));
      Lists(c, calendar, Emit(c, clock, jobs[from..]).slots, at, RangesFrom(c, calendar, clock, day, from))
    decreases |RangesOn(c, calendar, day)| - from
  {
    var start, ranges := calendar(day).startMs, RangesOn(c, calendar, day);
    var jobs := JobsOfDay(start, ranges);
    var here := RangesFrom(c, calendar, clock, day, from);
    if from == |ranges| {
      at := [];
      assert jobs[from..] == [];
    } else {
      assert jobs[from] in jobs && jobs[from..][0] == jobs[from] && jobs[from..][1..] == jobs[from + 1..];
      var first := Origin(day, entry, from, 0);
      assert RangeAt(c, first) == ParseRange(jobs[from].range);
      var minutes := ParseRange(ranges[from]).value;
      assert MinuteAt(c, minutes.0, 0) == minutes.0;
      var head := GridLists(c, calendar, clock, first);
      var rest := DayLists(c, calendar, clock, day, entry, from + 1);
      at := head + rest;
      JoinLists(c, calendar,
                Grid(c, clock, start, minutes.0, minutes.1), head, StepsFrom(c, calendar, clock, day, from, 0),
                Emit(c, clock, jobs[from + 1..]).slots, rest, RangesFrom(c, calendar, clock, day, from + 1));
      assert here == StepsFrom(c, calendar, clock, day, from, 0) + RangesFrom(c, calendar, clock, day, from + 1);
    }
  }

  /** A day with its schedule, or without one. */
  lemma WholeDayLists(c: Config, calendar: Calendar, clock: Clock, day: nat) returns (at: seq<Origin>)
    requires ValidConfig(c) && WellFormed(JobsOfDay(calendar(day).startMs, RangesOn(c, calendar, day)))
    ensures Lists(c, calendar, Emit(c, clock, JobsOfDay(calendar(day).startMs, RangesOn(c, calendar, day))).slots, at,
                  RangesFrom(c, calendar, clock, day, 0))
  {
    var jobs := JobsOfDay(calendar(day).startMs, RangesOn(c, calendar, day));
    RangesFound(c.weekly, calendar(day).dayOfWeek);
    if entry: nat :| FirstEntry(c.weekly, calendar(day).dayOfWeek, entry) {
      at := DayLists(c, calendar, clock, day, entry, 0);
      assert jobs[0..] == jobs;
    } else {
      at := [];
      assert jobs == [];
    }
  }

  ghost function DaysFrom(c: Config, calendar: Calendar, clock: Clock, from: nat, days: int): iset<Origin> {
    iset o: Origin | from <= o.day <= days && Offers(c, calendar, clock, o)
  }

  lemma JoinDays(c: Config, calendar: Calendar, clock: Clock, from: nat, days: int,
                 today: seq<Slot>, head: seq<Origin>, later: seq<Slot>, rest: seq<Origin>)
    requires from <= days
    requires Lists(c, calendar, today, head, RangesFrom(c, calendar, clock, from, 0))
    requires Lists(c, calendar, later, rest, DaysFrom(c, calendar, clock, from + 1, days))
    ensures Lists(c, calendar, today + later, head + rest, DaysFrom(c, calendar, clock, from, days))
  {
    var first, others := RangesFrom(c, calendar, clock, from, 0), DaysFrom(c, calendar, clock, from + 1, days);
    JoinLists(c, calendar, today, head, first, later, rest, others);
    assert DaysFrom(c, calendar, clock, from, days) == first + others;
  }

  lemma EmitDays(c: Config, calendar: Calendar, clock: Clock, from: nat, days: int)
    requires ValidConfig(c) && from <= days && WellFormed(Jobs(c, calendar, from, days))
    ensures var today := JobsOfDay(calendar(from).startMs, RangesOn(c, calendar, from));
      var later := Jobs(c, calendar, from + 1, days);
      && WellFormed(today) && WellFormed(later)
      && Emit(c, clock, Jobs(c, calendar, from, days)).slots
         == Emit(c, clock, today).slots + Emit(c, clock, later).slots
  {
    var today := JobsOfDay(calendar(from).startMs, RangesOn(c, calendar, from));
    var later := Jobs(c, calendar, from + 1, days);
    assert Jobs(c, calendar, from, days) == today + later;
    assert forall j | j in today || j in later :: j in today + later;
    EmitAppends(c, clock, today, later);
  }

  lemma {:induction false} DaysList(c: Config, calendar: Calendar, clock: Clock, from: nat, days: int)
    returns (at: seq<Origin>)
    requires ValidConfig(c) && WellFormed(Jobs(c, calendar, from, days))
    ensures Lists(c, calendar, Emit(c, clock, Jobs(c, calendar, from, days)).slots, at,
                  DaysFrom(c, calendar, clock, from, days))
    decreases days - from + 1
  {
    at := [];
    if from <= days {
      EmitDays(c, calendar, clock, from, days);
      var today := JobsOfDay(calendar(from).startMs, RangesOn(c, calendar, from));
      var head := WholeDayLists(c, calendar, clock, from);
      var rest := DaysList(c, calendar, clock, from + 1, days);
      JoinDays(c, calendar, clock, from, days, Emit(c, clock, today).slots, head,
               Emit(c, clock, Jobs(c, calendar, from + 1, days)).slots, rest);
      at := head + rest;
    }
  }

  // ---- The answer ----

  /** The slot ends later than now and meets no busy interval that the two queries of the window return. */
  ghost predicate Free(slot: Slot, w: Window, busy: seq<Interval>, now: int) {
    && now < slot.endAt
    && forall b | b in busy && b.startMs <= w.endMs && w.startMs <= b.endMs ::
       slot.endAt <= b.startMs || b.endMs <= slot.startAt
  }

  lemma FreeIffKept(slot: Slot, w: Window, busy: seq<Interval>, now: int)
    ensures Free(slot, w, busy, now) <==> Keep(slot, now, Fetched(busy, w))
  {
    forall b ensures b in Fetched(busy, w) <==> b in busy && InWindow(b, w) {
      FetchedMembers(busy, w, b);
    }
  }

  /** Everything the window has to offer: the grid slots of the ranges in force on each day that are free. */
  ghost function Offerable(c: Config, w: Window, calendar: Calendar, busy: seq<Interval>, now: int): iset<Origin> {
    iset o: Origin | o.day <= w.days
      && FirstEntry(c.weekly, calendar(o.day).dayOfWeek, o.entry) && RangeAt(c, o).Ok?
      && MinuteAt(c, RangeAt(c, o).value.0, o.step) + c.slotDurationMin <= RangeAt(c, o).value.1
      && Free(SlotOf(c, calendar, o), w, busy, now)
  }

  lemma OfferableIsEmitted(c: Config, w: Window, calendar: Calendar, busy: seq<Interval>, now: int)
    ensures Offerable(c, w, calendar, busy, now) == DaysFrom(c, calendar, Clock(now, Fetched(busy, w)), 0, w.days)
  {
    forall slot ensures Free(slot, w, busy, now) <==> Keep(slot, now, Fetched(busy, w)) {
      FreeIffKept(slot, w, busy, now);
    }
  }

  /**
   * On well-formed schedules the answer is the first 500 of the list that holds the slot of every day, range
   * and grid step which is offerable, each once and in that order.
   */
  lemma SlotsInOrder(c: Config, w: Window, calendar: Calendar, busy: seq<Interval>, now: int)
    returns (all: seq<Slot>, at: seq<Origin>)
    requires ValidConfig(c) && c.isActive && 0 <= w.days <= 14
    requires WellFormed(Jobs(c, calendar, 0, w.days))
    ensures Lists(c, calendar, all, at, Offerable(c, w, calendar, busy, now))
    ensures Slots(Some(c), w, calendar, busy, now) == Ok(if |all| <= 500 then all else all[..500])
  {
    OfferableIsEmitted(c, w, calendar, busy, now);
    var clock := Clock(now, Fetched(busy, w));
    all := Emit(c, clock, Jobs(c, calendar, 0, w.days)).slots;
    at := DaysList(c, calendar, clock, 0, w.days);
    SlotsExact(c, w, calendar, busy, now);
    if |all| <= 500 { assert all[..|all|] == all; }
  }

  // ---- In order of time ----

  /** Days of the window have at least 24 hours, and the ranges of a day follow each other without overlap. */
  ghost predicate Tidy(c: Config, w: Window, calendar: Calendar) {
    && (forall i: nat | i < w.days :: calendar(i).startMs + 24 * HOUR_MS <= calendar(i + 1).startMs)
    && (forall a: Origin, b: Origin | a.day == b.day <= w.days && a.entry == b.entry && a.range < b.range
          && FirstEntry(c.weekly, calendar(a.day).dayOfWeek, a.entry) && RangeAt(c, a).Ok? && RangeAt(c, b).Ok? ::
          RangeAt(c, a).value.1 <= RangeAt(c, b).value.0)
  }

  lemma {:induction false} DaysApart(c: Config, w: Window, calendar: Calendar, i: nat, j: nat)
    requires Tidy(c, w, calendar) && i < j <= w.days
    ensures calendar(i).startMs + 24 * HOUR_MS <= calendar(j).startMs
    decreases j
  {
    assert calendar(j - 1).startMs + 24 * HOUR_MS <= calendar(j - 1 + 1).startMs;
    if i < j - 1 { DaysApart(c, w, calendar, i, j - 1); }
  }

  lemma SlotTimes(dayStart: int, m: int, m': int, duration: int)
    requires m + duration <= m'
    ensures SlotAt(dayStart, m, duration).endAt <= SlotAt(dayStart, m', duration).startAt
  {
  }

  lemma MinuteNotBefore(c: Config, m: int, step: nat)
    requires ValidConfig(c)
    ensures m <= MinuteAt(c, m, step)
  {
    if step > 0 {
      MinuteMonotone(c, m, 0, step);
      assert MinuteAt(c, m, 0) == m;
    }
  }

  /** An earlier origin has the earlier slot. */
  lemma EarlierOrigin(c: Config, w: Window, calendar: Calendar, clock: Clock, a: Origin, b: Origin)
    requires ValidConfig(c) && Tidy(c, w, calendar) && Before(a, b) && b.day <= w.days
    requires Offers(c, calendar, clock, a) && Offers(c, calendar, clock, b)
    ensures SlotOf(c, calendar, a).endAt <= SlotOf(c, calendar, b).startAt
  {
    var ra, rb := RangeAt(c, a).value, RangeAt(c, b).value;
    MinuteNotBefore(c, rb.0, b.step);
    if a.day < b.day {
      DaysApart(c, w, calendar, a.day, b.day);
      SlotTimes(calendar(a.day).startMs, MinuteAt(c, ra.0, a.step), 24 * 60, c.slotDurationMin);
    } else if a.range < b.range {
      SlotTimes(calendar(a.day).startMs, MinuteAt(c, ra.0, a.step), MinuteAt(c, rb.0, b.step), c.slotDurationMin);
    } else {
      MinuteMonotone(c, ra.0, a.step, b.step);
      SlotTimes(calendar(a.day).startMs, MinuteAt(c, ra.0, a.step), MinuteAt(c, rb.0, b.step), c.slotDurationMin);
    }
  }

  /** The slots come in order of time and do not overlap. */
  ghost predicate InTime(slots: seq<Slot>) {
    forall p, q | 0 <= p < q < |slots| :: slots[p].endAt <= slots[q].startAt
  }

  /** What is offerable but not in the answer starts after all the 500 slots of the answer have ended. */
  ghost predicate LeavesOutLater(c: Config, calendar: Calendar, origins: iset<Origin>, answer: seq<Slot>) {
    forall o | o in origins && RangeAt(c, o).Ok? && SlotOf(c, calendar, o) !in answer ::
      |answer| == 500 && forall x | x in answer :: x.endAt <= SlotOf(c, calendar, o).startAt
  }

  /**
   * On tidy schedules the answer ascends in time without overlap, and a slot that is offerable but missing is
   * later than all 500 in the answer.
   */
  lemma EarliestWin(c: Config, w: Window, calendar: Calendar, busy: seq<Interval>, now: int)
    requires ValidConfig(c) && c.isActive && 0 <= w.days <= 14
    requires WellFormed(Jobs(c, calendar, 0, w.days)) && Tidy(c, w, calendar)
    ensures Slots(Some(c), w, calendar, busy, now).Ok?
    ensures var answer := Slots(Some(c), w, calendar, busy, now).value;
      && InTime(answer)
      && LeavesOutLater(c, calendar, Offerable(c, w, calendar, busy, now), answer)
  {
    var all, at := SlotsInOrder(c, w, calendar, busy, now);
    ListedAscend(c, w, calendar, busy, now, all, at);
    AscendingCut(c, w, calendar, busy, now, all, at, if |all| <= 500 then all else all[..500]);
  }

  lemma ListedAscend(c: Config, w: Window, calendar: Calendar, busy: seq<Interval>, now: int,
                     all: seq<Slot>, at: seq<Origin>)
    requires ValidConfig(c) && Tidy(c, w, calendar) && Lists(c, calendar, all, at, Offerable(c, w, calendar, busy, now))
    ensures InTime(all)
  {
    OfferableIsEmitted(c, w, calendar, busy, now);
    forall p, q | 0 <= p < q < |all| ensures all[p].endAt <= all[q].startAt {
      EarlierOrigin(c, w, calendar, Clock(now, Fetched(busy, w)), at[p], at[q]);
    }
  }

  lemma LeftOutIsLater(all: seq<Slot>, answer: seq<Slot>, q: nat)
    requires InTime(all) && answer == (if |all| <= 500 then all else all[..500]) && q < |all| && all[q] !in answer
    ensures |answer| == 500 && forall x | x in answer :: x.endAt <= all[q].startAt
  {
    assert forall k | 0 <= k < |answer| :: answer[k] == all[k];
    assert |answer| <= q;
  }

  lemma AscendingCut(c: Config, w: Window, calendar: Calendar, busy: seq<Interval>, now: int,
                     all: seq<Slot>, at: seq<Origin>, answer: seq<Slot>)
    requires Lists(c, calendar, all, at, Offerable(c, w, calendar, busy, now)) && InTime(all)
    requires answer == if |all| <= 500 then all else all[..500]
    ensures LeavesOutLater(c, calendar, Offerable(c, w, calendar, busy, now), answer)
  {
    forall o | o in Offerable(c, w, calendar, busy, now) && RangeAt(c, o).Ok? && SlotOf(c, calendar, o) !in answer
      ensures |answer| == 500 && forall x | x in answer :: x.endAt <= SlotOf(c, calendar, o).startAt
    {
      var q :| 0 <= q < |at| && at[q] == o;
      LeftOutIsLater(all, answer, q);
    }
  }

  // ---- Refusals ----

  /** Without an active schedule there is nothing to offer; a window runs forward over at most 15 days. */
  lemma SlotsRefused(stored: Option<Config>, w: Window, calendar: Calendar, busy: seq<Interval>, now: int)
    requires stored.Some? ==> ValidConfig(stored.value)
    ensures stored.None? || !stored.value.isActive ==> Slots(stored, w, calendar, busy, now) == Ok([])
    ensures stored.Some? && stored.value.isActive && (w.days < 0 || w.days > 14) ==>
      Slots(stored, w, calendar, busy, now) == Err(BadRequest)
  {
  }

  /** A malformed range spoils the answer, unless the ranges before it have filled it already. */
  lemma MalformedRefused(c: Config, w: Window, calendar: Calendar, busy: seq<Interval>, now: int, good: seq<Job>,
                         bad: Job, later: seq<Job>)
    requires ValidConfig(c) && c.isActive && 0 <= w.days <= 14 && WellFormed(good) && ParseRange(bad.range).Err?
    requires Jobs(c, calendar, 0, w.days) == good + [bad] + later
    ensures var slots := Emit(c, Clock(now, Fetched(busy, w)), good).slots;
      Slots(Some(c), w, calendar, busy, now) == if |slots| >= 500 then Ok(slots[..500]) else Err(BadRequest)
  {
    EmitStops(c, Clock(now, Fetched(busy, w)), good, bad, later);
  }

  lemma {:induction false} EmitStops(c: Config, clock: Clock, good: seq<Job>, bad: Job, later: seq<Job>)
    requires ValidConfig(c) && WellFormed(good) && ParseRange(bad.range).Err?
    ensures Emit(c, clock, good + [bad] + later) == Emission(Emit(c, clock, good).slots, true)
    decreases |good|
  {
    var all := good + [bad] + later;
    if good == [] {
      assert all[0] == bad;
    } else {
      assert all[0] == good[0] && all[1..] == good[1..] + [bad] + later;
      EmitStops(c, clock, good[1..], bad, later);
    }
  }

  // ---- Times of day ----

  function TwoDigits(n: nat): string
    requires n < 100
  {
    [('0' as int + n / 10) as char, ('0' as int + n % 10) as char]
  }

  function Hhmm(hours: nat, minutes: nat): string
    requires hours < 24 && minutes < 60
  {
    TwoDigits(hours) + ":" + TwoDigits(minutes)
  }

  /** Every time of day is read back from the way it is written. */
  lemma HhmmRoundTrip(hours: nat, minutes: nat)
    requires hours < 24 && minutes < 60
    ensures HhmmToMinutes(Hhmm(hours, minutes)) == Ok(60 * hours + minutes)
  {
    DigitsBack(hours);
    DigitsBack(minutes);
  }

  lemma DigitsBack(n: nat)
    requires n < 100
    ensures IsDigit(TwoDigits(n)[0]) && IsDigit(TwoDigits(n)[1])
    ensures Digit(TwoDigits(n)[0]) * 10 + Digit(TwoDigits(n)[1]) == n
  {
  }

  /** And nothing else is read. */
  lemma HhmmOnlyTimes(s: string)
    ensures HhmmToMinutes(s).Ok? ==>
      var m := HhmmToMinutes(s).value; 0 <= m < 1440 && s == Hhmm(m / 60, m % 60)
    ensures HhmmToMinutes(s).Err? ==> HhmmToMinutes(s) == Err(BadRequest)
  {
    if HhmmToMinutes(s).Ok? {
      var hh, mm := Digit(s[0]) * 10 + Digit(s[1]), Digit(s[3]) * 10 + Digit(s[4]);
      WrittenBack(s[0], s[1]);
      WrittenBack(s[3], s[4]);
      assert s == [s[0], s[1]] + ":" + [s[3], s[4]];
      assert (hh * 60 + mm) / 60 == hh && (hh * 60 + mm) % 60 == mm;
    }
  }

  lemma WrittenBack(a: char, b: char)
    requires IsDigit(a) && IsDigit(b)
    ensures TwoDigits(Digit(a) * 10 + Digit(b)) == [a, b]
  {
  }

  /** A range is read exactly if both its times are and it ends after it starts. */
  lemma RangeExact(r: TimeRange)
    ensures match (HhmmToMinutes(r.start), HhmmToMinutes(r.end))
      case (Ok(from), Ok(to)) => ParseRange(r) == if from < to then Ok((from, to)) else Err(BadRequest)
      case _ => ParseRange(r) == Err(BadRequest)
  {
    HhmmOnlyTimes(r.start);
    HhmmOnlyTimes(r.end);
  }
}
