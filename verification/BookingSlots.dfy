/** The slot generator and the booking operations together: what is offered can be booked. */
module BookingSlots {
  import opened Common
  import opened Bookings
  import opened BookingRuns
  import A = Availability

  /** The busy intervals of a provider: active blackouts and active bookings. */
  ghost predicate Describes(busy: seq<A.Interval>, s: Store, provider: string) {
    && (forall id | id in s.bookings && s.bookings[id].providerUserId == provider && s.bookings[id].Active() ::
          A.Interval(s.bookings[id].startAt, s.bookings[id].endAt) in busy)
    && (forall b | b in s.blackouts && b.providerUserId == provider && b.isActive ::
          A.Interval(b.startAt, b.endAt) in busy)
  }

  /** The offered slots come from the generator, run on the provider's busy intervals. */
  ghost predicate Offered(s: Store, provider: string, now: int, offered: seq<Slot>,
                          c: A.Config, w: A.Window, calendar: A.Calendar, busy: seq<A.Interval>) {
    && A.ValidConfig(c) && A.ValidWeekly(c.weekly) && c.isActive && 0 <= w.days <= A.MAX_DAYS
    && Describes(busy, s, provider)
    && A.Slots(Some(c), w, calendar, busy, now) == Ok(offered)
  }

  /** The window the booking calls ask for: the one UTC day in which the wanted start lies. */
  function UtcDay(startAt: int): A.Window {
    var midnight := startAt / (24 * HOUR_MS) * (24 * HOUR_MS);
    A.Window(0, midnight, midnight + 24 * HOUR_MS - 1)
  }

  /** That query: the first day the generator looks at is the provider's day that contains UTC midnight. */
  ghost predicate OfferedOnDay(s: Store, provider: string, now: int, offered: seq<Slot>, startAt: int,
                               c: A.Config, calendar: A.Calendar, busy: seq<A.Interval>) {
    Offered(s, provider, now, offered, c, UtcDay(startAt), calendar, busy)
      && calendar(0).startMs <= UtcDay(startAt).startMs
  }

  lemma UtcDayHolds(startAt: int)
    ensures UtcDay(startAt).startMs <= startAt <= UtcDay(startAt).endMs
    ensures UtcDay(startAt).endMs + 1 == UtcDay(startAt).startMs + 24 * HOUR_MS && UtcDay(startAt).days == 0
  {
  }

  lemma MinutesFitDay(dayStart: int, n: int, duration: int, endMin: int)
    requires n + duration <= endMin < 24 * 60
    ensures A.SlotAt(dayStart, n, duration).endAt <= dayStart + 24 * HOUR_MS
  {
  }

  /** A slot of a range ends on the day of the range. */
  lemma SlotEndsOnDay(c: A.Config, job: A.Job, slot: Slot)
    requires A.SlotOfJob(c, job, slot)
    ensures slot.endAt <= job.dayStart + 24 * HOUR_MS
  {
    var minutes := A.ParseRange(job.range).value;
    var n, k: nat :| A.OnGrid(c, minutes.0, minutes.1, n, k) && slot == A.SlotAt(job.dayStart, n, c.slotDurationMin);
    MinutesFitDay(job.dayStart, n, c.slotDurationMin, minutes.1);
  }

  lemma ScheduledToday(c: A.Config, w: A.Window, calendar: A.Calendar, slot: Slot)
    requires A.Scheduled(c, w, calendar, slot) && w.days == 0
    ensures slot.endAt <= calendar(0).startMs + 24 * HOUR_MS
  {
    var i: nat, range :| 0 <= i <= w.days && range in A.RangesOf(c.weekly, calendar(i).dayOfWeek)
      && A.SlotOfJob(c, A.Job(calendar(i).startMs, range), slot);
    SlotEndsOnDay(c, A.Job(calendar(i).startMs, range), slot);
  }

  lemma OfferedIsScheduled(s: Store, provider: string, now: int, offered: seq<Slot>, slot: Slot,
                           c: A.Config, w: A.Window, calendar: A.Calendar, busy: seq<A.Interval>)
    requires Offered(s, provider, now, offered, c, w, calendar, busy) && slot in offered
    ensures A.Scheduled(c, w, calendar, slot)
  {
    A.ValidatedIsWellFormed(c, calendar, w.days);
    A.SlotsExact(c, w, calendar, busy, now);
    var all := A.Emit(c, A.Clock(now, A.Fetched(busy, w)), A.Jobs(c, calendar, 0, w.days)).slots;
    assert slot in all;
  }

  /** A slot of that query that starts on the wanted day lies inside its window. */
  lemma OfferedIsInside(s: Store, provider: string, now: int, offered: seq<Slot>, slot: Slot,
                        c: A.Config, calendar: A.Calendar, busy: seq<A.Interval>)
    requires OfferedOnDay(s, provider, now, offered, slot.startAt, c, calendar, busy) && slot in offered
    ensures A.Inside(slot, UtcDay(slot.startAt))
  {
    UtcDayHolds(slot.startAt);
    OfferedIsScheduled(s, provider, now, offered, slot, c, UtcDay(slot.startAt), calendar, busy);
    ScheduledToday(c, UtcDay(slot.startAt), calendar, slot);
  }

  /** An offered slot is free of every active booking and blackout, with nothing excluded. */
  lemma OfferedIsFree(s: Store, provider: string, now: int, offered: seq<Slot>, slot: Slot,
                      c: A.Config, calendar: A.Calendar, busy: seq<A.Interval>)
    requires OfferedOnDay(s, provider, now, offered, slot.startAt, c, calendar, busy) && slot in offered
    ensures SlotFree(s, provider, slot.startAt, slot.endAt, None)
  {
    var w := UtcDay(slot.startAt);
    OfferedIsInside(s, provider, now, offered, slot, c, calendar, busy);
    A.ValidatedIsWellFormed(c, calendar, w.days);
    A.OfferedInsideMissesBusy(c, w, calendar, busy, now, slot);
    forall id | id in s.bookings && s.bookings[id].providerUserId == provider && s.bookings[id].Active()
      ensures !s.bookings[id].Overlaps(slot.startAt, slot.endAt)
    {
      assert A.Interval(s.bookings[id].startAt, s.bookings[id].endAt) in busy;
    }
    forall b | b in s.blackouts && b.providerUserId == provider && b.isActive
      ensures !(b.startAt < slot.endAt && b.endAt > slot.startAt)
    {
      assert A.Interval(b.startAt, b.endAt) in busy;
    }
  }

  /**
   * Excluding the old booking from the overlap check of a reschedule has no effect: the generator
   * never offers a slot that overlaps the booking being moved.
   */
  lemma RescheduleLeavesOldInterval(s: Store, now: int, actor: Actor, id: Id, input: RescheduleInput,
                                    offered: seq<Slot>, c: A.Config, calendar: A.Calendar, busy: seq<A.Interval>)
    requires Inv(s) && id in s.bookings && input.startAt.Some?
    requires OfferedOnDay(s, s.bookings[id].providerUserId, now, offered, input.startAt.value, c, calendar, busy)
    requires Reschedule(s, now, actor, id, input, offered).result.Ok?
    ensures var r := Reschedule(s, now, actor, id, input, offered);
      r.result.value in r.store.bookings
      && var moved := r.store.bookings[r.result.value];
      !s.bookings[id].Overlaps(moved.startAt, moved.endAt)
  {
    var t := RescheduleCheck(s, now, actor, id, input, offered).value;
    OfferedIsFree(s, s.bookings[id].providerUserId, now, offered, Slot(t.startAt, t.endAt), c, calendar, busy);
    assert Some(id) != None;
    RescheduleTxCases(s, now, t);
  }

  /** A client who asks for an offered slot is refused only because of an index on the request or the contract. */
  lemma OfferedSlotCanBeBooked(s: Store, now: int, clientId: string, input: CreateInput, offered: seq<Slot>,
                               minutes: int, c: A.Config, calendar: A.Calendar, busy: seq<A.Interval>)
    requires input.requestId != "" && input.offerId != "" && input.providerUserId != "" && input.contractId != Some("")
    requires input.startAt.Some? && input.startAt.value > now
    requires minutes == (if input.durationMin.Some? then input.durationMin.value else 60) && ValidDuration(minutes)
    requires OfferedOnDay(s, input.providerUserId, now, offered, input.startAt.value, c, calendar, busy)
    requires Slot(input.startAt.value, EndOf(input.startAt.value, minutes)) in offered
    ensures CreateByClient(s, now, clientId, input, offered).result.Ok? <==>
      forall id | id in s.bookings ::
        && !(s.bookings[id].Active() && s.bookings[id].requestId == input.requestId)
        && !(input.contractId.Some? && s.bookings[id].contractId == input.contractId)
  {
    var start, end := input.startAt.value, EndOf(input.startAt.value, minutes);
    OfferedIsFree(s, input.providerUserId, now, offered, Slot(start, end), c, calendar, busy);
    var booking := NewBooking(clientId, input, start, minutes);
    forall id | id in s.bookings
      ensures KeyClash(s.bookings[id], booking) <==>
        || (s.bookings[id].Active() && s.bookings[id].requestId == input.requestId)
        || (input.contractId.Some? && s.bookings[id].contractId == input.contractId)
    {
    }
  }

  /** A permitted reschedule to an offered slot always succeeds: no conflict is left to report. */
  lemma OfferedMoveSucceeds(s: Store, now: int, actor: Actor, id: Id, input: RescheduleInput, offered: seq<Slot>,
                            minutes: int, c: A.Config, calendar: A.Calendar, busy: seq<A.Interval>)
    requires Inv(s) && id in s.bookings && MayAct(s.bookings[id], actor) && s.bookings[id].status == Confirmed
    requires s.bookings[id].startAt - now >= RESCHEDULE_MIN_HOURS * HOUR_MS
    requires input.startAt.Some? && input.startAt.value > now
    requires minutes == (if input.durationMin.Some? then input.durationMin.value else s.bookings[id].durationMin)
    requires ValidDuration(minutes)
    requires OfferedOnDay(s, s.bookings[id].providerUserId, now, offered, input.startAt.value, c, calendar, busy)
    requires Slot(input.startAt.value, EndOf(input.startAt.value, minutes)) in offered
    ensures Reschedule(s, now, actor, id, input, offered).result == Ok(s.nextId)
  {
    var start, end := input.startAt.value, EndOf(input.startAt.value, minutes);
    OfferedIsFree(s, s.bookings[id].providerUserId, now, offered, Slot(start, end), c, calendar, busy);
    assert SlotFree(s, s.bookings[id].providerUserId, start, end, Some(id)) by {
      forall k | k in s.bookings && Some(k) != Some(id) ensures Some(k) != None {}
    }
    RescheduleTxCases(s, now, RescheduleCheck(s, now, actor, id, input, offered).value);
  }

  // ---- Slots shown to a client that the booking calls refuse ----

  /** The provider's local days, one after the other. */
  type LocalDays = int -> A.Day

  ghost predicate Ascending(local: LocalDays) {
    forall i :: local(i).startMs < local(i + 1).startMs
  }

  predicate DayOf(local: LocalDays, d: int, t: int) { local(d).startMs <= t < local(d + 1).startMs }

  lemma {:induction false} LaterDay(local: LocalDays, i: int, j: int)
    requires Ascending(local) && i < j
    ensures local(i + 1).startMs <= local(j).startMs
    decreases j - i
  {
    if i + 1 < j {
      LaterDay(local, i, j - 1);
      assert local(j - 1).startMs < local(j - 1 + 1).startMs;
    }
  }

  lemma OneDay(local: LocalDays, i: int, j: int, t: int)
    requires Ascending(local) && DayOf(local, i, t) && DayOf(local, j, t)
    ensures i == j
  {
    if i < j { LaterDay(local, i, j); }
    if j < i { LaterDay(local, j, i); }
  }

  /** The ranges of a day end before the next day begins, as they do on every day of 24 hours or more. */
  ghost predicate FitsDay(c: A.Config, local: LocalDays, d: int) {
    forall range | range in A.RangesOf(c.weekly, local(d).dayOfWeek) && A.ParseRange(range).Ok? ::
      local(d).startMs + A.ParseRange(range).value.1 * MINUTE_MS <= local(d + 1).startMs
  }

  lemma LongDayFits(c: A.Config, local: LocalDays, d: int)
    requires local(d).startMs + 24 * HOUR_MS <= local(d + 1).startMs
    ensures FitsDay(c, local, d)
  {
  }

  /** A grid slot of a day that fits lies on that day. */
  lemma SlotLiesOnDay(c: A.Config, local: LocalDays, d: int, range: A.TimeRange, slot: Slot)
    requires A.ValidConfig(c) && FitsDay(c, local, d) && range in A.RangesOf(c.weekly, local(d).dayOfWeek)
    requires A.SlotOfJob(c, A.Job(local(d).startMs, range), slot)
    ensures DayOf(local, d, slot.startAt)
  {
    var minutes := A.ParseRange(range).value;
    var n, k: nat :| A.OnGrid(c, minutes.0, minutes.1, n, k)
      && slot == A.SlotAt(local(d).startMs, n, c.slotDurationMin);
    A.GridAhead(c, minutes.0, minutes.1, n, k);
    MinutesWithin(local(d).startMs, n, c.slotDurationMin, minutes.1);
  }

  lemma MinutesWithin(dayStart: int, n: int, duration: int, endMin: int)
    requires 0 <= n && 0 < duration && n + duration <= endMin
    ensures dayStart <= A.SlotAt(dayStart, n, duration).startAt < dayStart + endMin * MINUTE_MS
  {
  }

  /**
   * A slot of the schedule of local day `d` is in the schedule that a booking call looks at exactly when the
   * day queried is `d`, that is, when `d` began at or before the UTC midnight that precedes the slot.
   */
  lemma QueriedScheduleIff(c: A.Config, local: LocalDays, d: int, q: int, range: A.TimeRange, slot: Slot,
                           calendar: A.Calendar)
    requires A.ValidConfig(c) && Ascending(local) && FitsDay(c, local, d) && FitsDay(c, local, q)
    requires range in A.RangesOf(c.weekly, local(d).dayOfWeek) && A.SlotOfJob(c, A.Job(local(d).startMs, range), slot)
    requires DayOf(local, q, UtcDay(slot.startAt).startMs) && calendar(0) == local(q)
    ensures A.Scheduled(c, UtcDay(slot.startAt), calendar, slot) <==> q == d
    ensures q == d <==> local(d).startMs <= UtcDay(slot.startAt).startMs
  {
    UtcDayHolds(slot.startAt);
    SlotLiesOnDay(c, local, d, range, slot);
    if local(d).startMs <= UtcDay(slot.startAt).startMs { OneDay(local, d, q, UtcDay(slot.startAt).startMs); }
    if A.Scheduled(c, UtcDay(slot.startAt), calendar, slot) {
      var i: nat, other :| 0 <= i <= 0 && other in A.RangesOf(c.weekly, calendar(i).dayOfWeek)
        && A.SlotOfJob(c, A.Job(calendar(i).startMs, other), slot);
      SlotLiesOnDay(c, local, q, other, slot);
      OneDay(local, d, q, slot.startAt);
    }
  }

  /**
   * A day of 23 hours whose ranges run past its end: the query of the day before offers the first slot of the
   * next day as its own last one, so the fit of the days cannot be dropped.
   */
  lemma ShortDayWitness(calendar: A.Calendar)
    requires calendar(0) == A.Day(0, 0)
    ensures var late, early := A.TimeRange("23:00", "23:59"), A.TimeRange("00:00", "01:00");
      var c := A.Config(15, 0, true, [A.DaySchedule(0, [late]), A.DaySchedule(1, [early])]);
      var next, slot := A.Day(23 * HOUR_MS, 1), A.SlotAt(23 * HOUR_MS, 0, 15);
      && early in A.RangesOf(c.weekly, next.dayOfWeek) && A.SlotOfJob(c, A.Job(next.startMs, early), slot)
      && next.startMs > UtcDay(slot.startAt).startMs
      && A.Scheduled(c, UtcDay(slot.startAt), calendar, slot)
  {
    var late, early := A.TimeRange("23:00", "23:59"), A.TimeRange("00:00", "01:00");
    var c := A.Config(15, 0, true, [A.DaySchedule(0, [late]), A.DaySchedule(1, [early])]);
    var slot := A.SlotAt(23 * HOUR_MS, 0, 15);
    assert A.ParseRange(early) == Ok((0, 60)) && A.OnGrid(c, 0, 60, 0, 0);
    assert A.ParseRange(late) == Ok((1380, 1439)) && A.OnGrid(c, 1380, 1439, 1380, 0);
    assert slot == A.SlotAt(0, 1380, 15);
    assert c.weekly[1..][0] == A.DaySchedule(1, [early]);
    assert late in A.RangesOf(c.weekly, 0) && A.SlotOfJob(c, A.Job(0, late), slot);
  }

  /** A slot of local day `d` that is free and not over: what a client is shown. */
  ghost predicate Shown(c: A.Config, local: LocalDays, d: int, slot: Slot, busy: seq<A.Interval>, now: int) {
    && slot.endAt > now && !A.Intersects(slot, busy)
    && exists range | range in A.RangesOf(c.weekly, local(d).dayOfWeek) ::
       A.SlotOfJob(c, A.Job(local(d).startMs, range), slot)
  }

  /** The query of a booking call looks at local day `q`, the one that contains UTC midnight. */
  ghost predicate Queries(local: LocalDays, q: int, startAt: int, calendar: A.Calendar) {
    DayOf(local, q, UtcDay(startAt).startMs) && calendar(0) == local(q)
  }

  /** A shown slot is among those the booking call accepts exactly when its day began by the UTC midnight before it. */
  lemma ShownIsOfferedIff(s: Store, provider: string, now: int, offered: seq<Slot>, slot: Slot,
                          c: A.Config, calendar: A.Calendar, busy: seq<A.Interval>, local: LocalDays, d: int, q: int)
    requires Ascending(local) && FitsDay(c, local, d) && FitsDay(c, local, q)
      && Queries(local, q, slot.startAt, calendar)
    requires OfferedOnDay(s, provider, now, offered, slot.startAt, c, calendar, busy)
      && Shown(c, local, d, slot, busy, now)
    ensures slot in offered ==> local(d).startMs <= UtcDay(slot.startAt).startMs
    ensures |offered| < A.MAX_SLOTS ==> (slot in offered <==> local(d).startMs <= UtcDay(slot.startAt).startMs)
  {
    var w := UtcDay(slot.startAt);
    var range :| range in A.RangesOf(c.weekly, local(d).dayOfWeek)
      && A.SlotOfJob(c, A.Job(local(d).startMs, range), slot);
    QueriedScheduleIff(c, local, d, q, range, slot, calendar);
    A.ValidatedIsWellFormed(c, calendar, w.days);
    A.SlotsExact(c, w, calendar, busy, now);
    forall b | b in A.Fetched(busy, w) ensures b in busy {
      A.FetchedMembers(busy, w, b);
    }
    assert A.Keep(slot, now, A.Fetched(busy, w));
    var all := A.Emit(c, A.Clock(now, A.Fetched(busy, w)), A.Jobs(c, calendar, 0, w.days)).slots;
    if |offered| < A.MAX_SLOTS { assert offered == all; }
  }

  /** A client who asks for a shown slot of a day that began after the UTC midnight before it is refused. */
  lemma ShownThenRefused(s: Store, now: int, clientId: string, input: CreateInput, offered: seq<Slot>, minutes: int,
                         c: A.Config, calendar: A.Calendar, busy: seq<A.Interval>, local: LocalDays, d: int, q: int)
    requires input.requestId != "" && input.offerId != "" && input.providerUserId != "" && input.contractId != Some("")
    requires input.startAt.Some? && input.startAt.value > now
    requires minutes == (if input.durationMin.Some? then input.durationMin.value else 60) && ValidDuration(minutes)
    requires Ascending(local) && FitsDay(c, local, d) && FitsDay(c, local, q)
    requires Queries(local, q, input.startAt.value, calendar)
    requires OfferedOnDay(s, input.providerUserId, now, offered, input.startAt.value, c, calendar, busy)
    requires Shown(c, local, d, Slot(input.startAt.value, EndOf(input.startAt.value, minutes)), busy, now)
    requires local(d).startMs > UtcDay(input.startAt.value).startMs
    ensures CreateByClient(s, now, clientId, input, offered) == Outcome(s, Err(Conflict))
  {
    var slot := Slot(input.startAt.value, EndOf(input.startAt.value, minutes));
    ShownIsOfferedIff(s, input.providerUserId, now, offered, slot, c, calendar, busy, local, d, q);
  }

  /**
   * For a zone whose days begin `west` minutes after UTC midnight, the bookable minutes of a day are those
   * from 24 hours minus `west` on; all of them only where `west` is 0.
   */
  lemma BookableMinutes(day: int, west: int, minute: int)
    requires 0 <= west < 24 * 60 && 0 <= minute < 24 * 60
    ensures var start := day * (24 * HOUR_MS) + west * MINUTE_MS;
      start <= UtcDay(start + minute * MINUTE_MS).startMs <==> west == 0 || west + minute >= 24 * 60
  {
    var start := day * (24 * HOUR_MS) + west * MINUTE_MS;
    var later := if west + minute >= 24 * 60 then day + 1 else day;
    MidnightOf(later, start + minute * MINUTE_MS);
  }

  lemma MidnightOf(day: int, t: int)
    requires day * (24 * HOUR_MS) <= t < (day + 1) * (24 * HOUR_MS)
    ensures UtcDay(t).startMs == day * (24 * HOUR_MS)
  {
    var length := 24 * HOUR_MS;
    assert t == day * length + (t - day * length) && 0 <= t - day * length < length;
  }
}
