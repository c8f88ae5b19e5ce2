/**
 * The booking service as an object over its collection. Every call is proved to be the call of module
 * Bookings and to leave a reachable collection reachable, so everything BookingRuns proves of runs holds of it.
 */
module BookingService {
  import opened Common
  import opened Bookings
  import BR = BookingRuns
  import BH = BookingHistory

  class BookingsService {
    var bookings: map<Id, Booking>
    var blackouts: seq<Blackout>
    var nextId: Id

    constructor ()
      ensures Contents() == Store(map[], [], 0) && BR.Reachable(Contents())
    {
      assert BR.Run(Store(map[], [], 0), []) == Store(map[], [], 0);
      bookings, blackouts, nextId := map[], [], 0;
    }

    ghost function Contents(): Store
      reads this
    {
      Store(bookings, blackouts, nextId)
    }

    method CreateByClient(now: int, clientId: string, input: CreateInput, offered: seq<Slot>) returns (r: Result<Id>)
      modifies this
      ensures Outcome(Contents(), r) == Bookings.CreateByClient(old(Contents()), now, clientId, input, offered)
      ensures BR.Reachable(old(Contents())) ==> BR.Reachable(Contents())
    {
      BR.ReachableNext(Contents(), BR.CallCreate(now, clientId, input, offered));
      if input.requestId == "" || input.offerId == "" || input.providerUserId == "" { return Err(BadRequest); }
      if input.contractId == Some("") { return Err(BadRequest); }
      if input.startAt.None? || input.startAt.value <= now { return Err(BadRequest); }
      var start := input.startAt.value;
      var minutes := if input.durationMin.Some? then input.durationMin.value else 60;
      if !ValidDuration(minutes) { return Err(BadRequest); }
      var end := EndOf(start, minutes);
      if Slot(start, end) !in offered { return Err(Conflict); }
      if Taken(bookings, input.providerUserId, start, end, None) { return Err(Conflict); }
      if BlackedOut(blackouts, input.providerUserId, start, end) { return Err(Conflict); }
      var booking := NewBooking(clientId, input, start, minutes);
      if DuplicateKey(bookings, booking) { return Err(Conflict); }
      bookings := bookings[nextId := booking];
      nextId := nextId + 1;
      return Ok(nextId - 1);
    }

    method Cancel(now: int, actor: Actor, id: Id, reason: Option<string>, atomic: bool) returns (r: Result<()>)
      modifies this`bookings
      ensures Outcome(Contents(), r) == Bookings.Cancel(old(Contents()), now, actor, id, reason, atomic)
      ensures BR.Reachable(old(Contents())) ==> BR.Reachable(Contents())
    {
      BR.ReachableNext(Contents(), BR.CallCancel(now, actor, id, reason, atomic));
      if id !in bookings { return Err(NotFound); }
      var b := bookings[id];
      if !b.OwnedBy(actor) { return Err(Forbidden); }
      if b.status == Cancelled { return Ok(()); }
      if b.status == Completed { return Err(BadRequest); }
      var msToStart := b.startAt - now;
      if msToStart <= 0 { return Err(BadRequest); }
      if msToStart < CANCEL_MIN_HOURS * HOUR_MS { return Err(BadRequest); }
      if atomic {
        r := CancelIfConfirmed(now, id, actor.role, reason);
        return;
      }
      bookings := bookings[id := MarkCancelled(b, now, actor.role, reason)];
      return Ok(());
    }

    method CancelIfConfirmed(now: int, id: Id, cancelledBy: Role, reason: Option<string>) returns (r: Result<()>)
      modifies this`bookings
      ensures Outcome(Contents(), r) == CancelAtomic(old(Contents()), now, id, cancelledBy, reason)
      ensures BR.Reachable(old(Contents())) ==> BR.Reachable(Contents())
    {
      BR.ReachableNext(Contents(), BR.CommitCancel(now, id, cancelledBy, reason, true));
      if id in bookings && bookings[id].status == Confirmed {
        bookings := bookings[id := MarkCancelled(bookings[id], now, cancelledBy, reason)];
        return Ok(());
      }
      if id !in bookings { return Err(NotFound); }
      if bookings[id].status == Cancelled { return Ok(()); }
      return Err(Conflict);
    }

    method Reschedule(now: int, actor: Actor, id: Id, input: RescheduleInput, offered: seq<Slot>)
      returns (r: Result<Id>)
      modifies this`bookings, this`nextId
      ensures Outcome(Contents(), r) == Bookings.Reschedule(old(Contents()), now, actor, id, input, offered)
      ensures BR.Reachable(old(Contents())) ==> BR.Reachable(Contents())
    {
      BR.ReachableNext(Contents(), BR.CallReschedule(now, actor, id, input, offered));
      if input.startAt.None? || input.startAt.value <= now { return Err(BadRequest); }
      if id !in bookings { return Err(NotFound); }
      var prior := bookings[id];
      if !prior.OwnedBy(actor) { return Err(Forbidden); }
      if prior.status != Confirmed { return Err(BadRequest); }
      if prior.startAt - now < RESCHEDULE_MIN_HOURS * HOUR_MS { return Err(BadRequest); }
      var minutes := if input.durationMin.Some? then input.durationMin.value else prior.durationMin;
      if !ValidDuration(minutes) { return Err(BadRequest); }
      var start, end := input.startAt.value, EndOf(input.startAt.value, minutes);
      if Slot(start, end) !in offered { return Err(Conflict); }
      if Taken(bookings, prior.providerUserId, start, end, Some(id)) { return Err(Conflict); }
      if BlackedOut(blackouts, prior.providerUserId, start, end) { return Err(Conflict); }
      r := CommitReschedule(now, TicketData(id, start, minutes, end, actor.role, input.reason));
    }

    /** The body of the transaction; `before` is what an abort restores. */
    method CommitReschedule(now: int, t: Ticket) returns (r: Result<Id>)
      modifies this`bookings, this`nextId
      ensures Outcome(Contents(), r) == RescheduleTx(old(Contents()), now, t)
      ensures BR.Reachable(old(Contents())) ==> BR.Reachable(Contents())
    {
      BR.ReachableNext(Contents(), BR.CommitReschedule(now, t));
      var before := bookings;
      if t.oldId !in bookings { return Err(NotFound); }
      var inTx := bookings[t.oldId];
      if inTx.status != Confirmed {
        if inTx.rescheduledToId.Some? && inTx.rescheduledToId.value in bookings {
          return Ok(inTx.rescheduledToId.value);
        }
        return Err(Conflict);
      }
      if Taken(bookings, inTx.providerUserId, t.startAt, t.endAt, Some(t.oldId)) { return Err(Conflict); }
      if BlackedOut(blackouts, inTx.providerUserId, t.startAt, t.endAt) { return Err(Conflict); }

      bookings := bookings[t.oldId := Superseded(inTx, now, t)];
      var created: Option<Id>;
      var booking := Successor(inTx, t);
      if !DuplicateKey(bookings, booking) {
        bookings := bookings[nextId := booking];
        created := Some(nextId);
        nextId := nextId + 1;
      } else {
        created := FindRecovery(Store(bookings, blackouts, nextId), inTx, t, 0);
      }
      if created.None? {
        bookings := before;
        return Err(Conflict);
      }
      bookings := bookings[t.oldId := bookings[t.oldId].(rescheduledToId := created)];
      return Ok(created.value);
    }

    method Complete(now: int, actor: Actor, id: Id) returns (r: Result<()>)
      modifies this`bookings
      ensures Outcome(Contents(), r) == Bookings.Complete(old(Contents()), now, actor, id)
      ensures BR.Reachable(old(Contents())) ==> BR.Reachable(Contents())
    {
      BR.ReachableNext(Contents(), BR.CallComplete(now, actor, id));
      if id !in bookings { return Err(NotFound); }
      var b := bookings[id];
      if actor.role != Admin && actor.role != Provider { return Err(Forbidden); }
      if actor.role == Provider && b.providerUserId != actor.userId { return Err(Forbidden); }
      if b.status == Cancelled { return Err(BadRequest); }
      if b.status == Completed { return Ok(()); }
      if b.endAt > now { return Err(BadRequest); }
      r := CompleteIfConfirmed(id);
    }

    /** The conditional update, and the answer of the re-read when another write came first. */
    method CompleteIfConfirmed(id: Id) returns (r: Result<()>)
      modifies this`bookings
      ensures Outcome(Contents(), r) == CompleteUpdate(old(Contents()), id)
      ensures BR.Reachable(old(Contents())) ==> BR.Reachable(Contents())
    {
      BR.ReachableNext(Contents(), BR.CommitComplete(id));
      if id in bookings && bookings[id].status == Confirmed {
        bookings := bookings[id := bookings[id].(status := Completed)];
        return Ok(());
      }
      if id !in bookings { return Err(NotFound); }
      if bookings[id].status == Completed { return Ok(()); }
      return Err(Conflict);
    }

    method GetHistory(actor: Actor, id: Id) returns (r: Result<History>)
      ensures r == Bookings.GetHistory(Contents(), actor, id)
      ensures BR.Reachable(Contents()) ==> (r.Ok? <==> id in bookings && BR.MayAct(bookings[id], actor))
    {
      BH.ReachableHistory(Contents(), actor, id);
      if id !in bookings { return Err(NotFound); }
      if !bookings[id].OwnedBy(actor) { return Err(Forbidden); }
      var byId := SameChainKey(bookings, bookings[id]);

      r := Walk(byId, id, MAX_HOPS);
    }

    static method Walk(byId: map<Id, Booking>, id: Id, maxHops: nat) returns (r: Result<History>)
      requires id in byId && maxHops > 0
      ensures r == HistoryOf(byId, id, maxHops)
    {
      var root := FindRoot(byId, id, maxHops);
      if root.Err? { return Err(root.error); }
      var items := CollectForward(byId, root.value, maxHops);
      if items.Err? { return Err(items.error); }
      var latest := items.value[|items.value| - 1];
      return Ok(History(root.value, id, latest, IndexOf(items.value, id), items.value));
    }

    /** The backward loop of getHistory. */
    static method FindRoot(byId: map<Id, Booking>, start: Id, maxHops: nat) returns (r: Result<Id>)
      requires start in byId
      ensures r == WalkBack(byId, start, {start}, maxHops)
    {
      var root, visited := start, {start};
      for i := 0 to maxHops
        invariant root in byId
        invariant WalkBack(byId, start, {start}, maxHops) == WalkBack(byId, root, visited, maxHops - i)
      {
        if byId[root].rescheduledFromId.None? { return Ok(root); }
        var prev := byId[root].rescheduledFromId.value;
        if prev !in byId { return Ok(root); }
        if prev in visited { return Err(Conflict); }
        visited, root := visited + {prev}, prev;
      }
      return Ok(root);
    }

    /** The forward loop of getHistory. */
    static method CollectForward(byId: map<Id, Booking>, start: Id, maxHops: nat) returns (r: Result<seq<Id>>)
      requires start in byId
      ensures r == WalkForward(byId, start, {start}, maxHops)
    {
      var items: seq<Id>, cur, visited := [], start, {start};
      ghost var walk := WalkForward(byId, start, {start}, maxHops);
      PrependNothing(walk);
      for i := 0 to maxHops
        invariant cur in byId
        invariant walk == Prepend(items, WalkForward(byId, cur, visited, maxHops - i))
      {
        ghost var before, rest := items, WalkForward(byId, cur, visited, maxHops - i);
        items := items + [cur];
        if byId[cur].rescheduledToId.None? { return Ok(items); }
        var next := byId[cur].rescheduledToId.value;
        if next !in byId { return Ok(items); }
        if next in visited { return Err(Conflict); }
        visited := visited + {next};
        PrependStep(before, cur, rest, WalkForward(byId, next, visited, maxHops - i - 1));
        cur := next;
      }
      assert items + [] == items;
      return Ok(items);
    }
  }

  ghost function Prepend(items: seq<Id>, walk: Result<seq<Id>>): Result<seq<Id>> {
    if walk.Err? then walk else Ok(items + walk.value)
  }

  lemma PrependNothing(walk: Result<seq<Id>>)
    ensures Prepend([], walk) == walk
  {
    if walk.Ok? { assert [] + walk.value == walk.value; }
  }

  lemma PrependStep(items: seq<Id>, cur: Id, walk: Result<seq<Id>>, rest: Result<seq<Id>>)
    requires walk == Prepend([cur], rest)
    ensures Prepend(items, walk) == Prepend(items + [cur], rest)
  {
    if rest.Ok? { assert items + ([cur] + rest.value) == items + [cur] + rest.value; }
  }
}
