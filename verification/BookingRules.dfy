/**
 * What each booking call answers and writes, in terms of the stored fields: every refusal, the exact condition
 * of success and the exact change.
 */
module BookingRules {
  import opened Common
  import opened Bookings
  import opened BookingRuns

  const DAY_MS: int := 86_400_000

  // ---- Free time and free indexes ----

  /** No booking of the provider that is not cancelled, except one, and no active blackout meets [lo, hi). */
  ghost predicate Clear(s: Store, provider: string, lo: int, hi: int, except: Option<Id>) {
    && (forall id | id in s.bookings && s.bookings[id].providerUserId == provider
       && s.bookings[id].status != Cancelled ::
          except == Some(id) || s.bookings[id].endAt <= lo || hi <= s.bookings[id].startAt)
    && (forall b | b in s.blackouts && b.providerUserId == provider && b.isActive :: b.endAt <= lo || hi <= b.startAt)
  }

  lemma ClearIffFree(s: Store, provider: string, lo: int, hi: int, except: Option<Id>)
    ensures Clear(s, provider, lo, hi, except) <==> SlotFree(s, provider, lo, hi, except)
  {
  }

  /** No other booking stands on the request, unless cancelled, or on the contract, cancelled or not. */
  ghost predicate Unclaimed(s: Store, requestId: string, contractId: Option<string>) {
    forall id | id in s.bookings ::
      && (s.bookings[id].requestId == requestId ==> s.bookings[id].status == Cancelled)
      && (contractId.Some? ==> s.bookings[id].contractId != contractId)
  }

  lemma UnclaimedIff(s: Store, b: Booking)
    requires b.status == Confirmed && b.rescheduledFromId.None?
    ensures Unclaimed(s, b.requestId, b.contractId) <==> !DuplicateKey(s.bookings, b)
  {
    if DuplicateKey(s.bookings, b) {
      var id :| id in s.bookings && KeyClash(s.bookings[id], b);
    } else {
      forall id | id in s.bookings ensures !KeyClash(s.bookings[id], b) {
      }
    }
  }

  // ---- createByClient ----

  /** The input names everything, starts later than now and lasts between a quarter of an hour and a day. */
  predicate CompleteInput(input: CreateInput, now: int, minutes: int) {
    && input.requestId != "" && input.offerId != "" && input.providerUserId != "" && input.contractId != Some("")
    && input.startAt.Some? && input.startAt.value > now && 15 <= minutes <= 1440
  }

  /** A call without a duration asks for an hour. */
  lemma CreateExact(s: Store, now: int, clientId: string, input: CreateInput, offered: seq<Slot>, minutes: int)
    requires minutes == match input.durationMin case Some(m) => m case None => 60
    ensures var r := CreateByClient(s, now, clientId, input, offered);
      && (!CompleteInput(input, now, minutes) ==> r == Outcome(s, Err(BadRequest)))
      && (CompleteInput(input, now, minutes) ==>
            var start := input.startAt.value;
            var end := start + minutes * 60_000;
            if Slot(start, end) in offered && Clear(s, input.providerUserId, start, end, None)
               && Unclaimed(s, input.requestId, input.contractId)
            then
              && r.result == Ok(s.nextId)
              && r.store == Store(s.bookings[s.nextId := Booking(
                     input.requestId, input.offerId, input.contractId, input.providerUserId, clientId,
                     start, minutes, end, Confirmed, None, None, None, None, None, None, None)],
                   s.blackouts, s.nextId + 1)
            else r == Outcome(s, Err(Conflict)))
  {
    if CompleteInput(input, now, minutes) {
      var start := input.startAt.value;
      ClearIffFree(s, input.providerUserId, start, EndOf(start, minutes), None);
      UnclaimedIff(s, NewBooking(clientId, input, start, minutes));
    }
  }

  // ---- cancel ----

  /** The booking is cancelled by `actor` and nothing else is touched. */
  ghost predicate CancelledNow(s: Store, t: Store, id: Id, now: int, cancelledBy: Role, reason: Option<string>)
    requires id in s.bookings
  {
    t == s.(bookings := s.bookings[id := s.bookings[id].(
              status := Cancelled, cancelledAt := Some(now), cancelledBy := Some(cancelledBy), cancelReason := reason)])
  }

  /** Refusals come in the order: missing, not allowed, completed or too late; a cancelled booking is left as it is. */
  lemma CancelExact(s: Store, now: int, actor: Actor, id: Id, reason: Option<string>, atomic: bool)
    ensures var r := Cancel(s, now, actor, id, reason, atomic);
      if id !in s.bookings then r == Outcome(s, Err(NotFound))
      else if !MayAct(s.bookings[id], actor) then r == Outcome(s, Err(Forbidden))
      else match s.bookings[id].status
        case Cancelled => r == Outcome(s, Ok(()))
        case Completed => r == Outcome(s, Err(BadRequest))
        case Confirmed =>
          if s.bookings[id].startAt < now + DAY_MS then r == Outcome(s, Err(BadRequest))
          else r.result == Ok(()) && CancelledNow(s, r.store, id, now, actor.role, reason)
  {
  }

  /** The two writes of a cancellation, on whatever is stored by the time they arrive. */
  lemma LateCancelExact(s: Store, now: int, id: Id, cancelledBy: Role, reason: Option<string>)
    requires id in s.bookings
    ensures CancelledNow(s, SaveCancelled(s, now, id, cancelledBy, reason), id, now, cancelledBy, reason)
    ensures var r := CancelAtomic(s, now, id, cancelledBy, reason);
      match s.bookings[id].status
      case Confirmed => r.result == Ok(()) && CancelledNow(s, r.store, id, now, cancelledBy, reason)
      case Cancelled => r == Outcome(s, Ok(()))
      case Completed => r == Outcome(s, Err(Conflict))
  {
  }

  // ---- complete ----

  ghost predicate CompletedNow(s: Store, t: Store, id: Id)
    requires id in s.bookings
  {
    t == s.(bookings := s.bookings[id := s.bookings[id].(status := Completed)])
  }

  /** A client never completes, not even the own booking. */
  lemma CompleteExact(s: Store, now: int, actor: Actor, id: Id)
    ensures var r := Complete(s, now, actor, id);
      if id !in s.bookings then r == Outcome(s, Err(NotFound))
      else if actor.role != Admin && actor != Actor(s.bookings[id].providerUserId, Provider)
      then r == Outcome(s, Err(Forbidden))
      else match s.bookings[id].status
        case Cancelled => r == Outcome(s, Err(BadRequest))
        case Completed => r == Outcome(s, Ok(()))
        case Confirmed =>
          if now < s.bookings[id].endAt then r == Outcome(s, Err(BadRequest))
          else r.result == Ok(()) && CompletedNow(s, r.store, id)
  {
  }

  /** The write of a completion, on whatever is stored by the time it arrives. */
  lemma LateCompleteExact(s: Store, id: Id)
    requires id in s.bookings
    ensures var r := CompleteUpdate(s, id);
      match s.bookings[id].status
      case Confirmed => r.result == Ok(()) && CompletedNow(s, r.store, id)
      case Completed => r == Outcome(s, Ok(()))
      case Cancelled => r == Outcome(s, Err(Conflict))
  {
  }

  // ---- reschedule ----

  /** The old booking is cancelled and linked to a new one that takes over its parties, and nothing else is touched. */
  ghost predicate MovedNow(s: Store, t: Store, id: Id, start: int, minutes: int, now: int, movedBy: Role,
                           reason: Option<string>)
    requires id in s.bookings
  {
    var old' := s.bookings[id];
    && t.blackouts == s.blackouts && t.nextId == s.nextId + 1
    && t.bookings == s.bookings
         [id := old'.(status := Cancelled, cancelledAt := Some(now), cancelledBy := Some(movedBy),
                      cancelReason := reason,
                      rescheduledAt := Some(now), rescheduleReason := reason, rescheduledToId := Some(s.nextId))]
         [s.nextId := Booking(old'.requestId, old'.offerId, None, old'.providerUserId, old'.clientId,
                              start, minutes, start + minutes * 60_000, Confirmed,
                              None, None, None, Some(id), None, None, None)]
  }

  /** The transaction on any reachable store, whatever happened since its pre-check. */
  lemma TxExact(s: Store, now: int, t: Ticket)
    requires Inv(s)
    ensures var r := RescheduleTx(s, now, t);
      if t.oldId !in s.bookings then r == Outcome(s, Err(NotFound))
      else
        var b := s.bookings[t.oldId];
        if b.status == Confirmed then
          if Clear(s, b.providerUserId, t.startAt, t.startAt + t.durationMin * 60_000, Some(t.oldId)) then
            r.result == Ok(s.nextId)
            && MovedNow(s, r.store, t.oldId, t.startAt, t.durationMin, now, t.cancelledBy, t.reason)
          else r == Outcome(s, Err(Conflict))
        else match b.rescheduledToId
          case Some(to) => r == Outcome(s, Ok(to))
          case None => r == Outcome(s, Err(Conflict))
  {
    RescheduleTxCases(s, now, t);
    if t.oldId in s.bookings {
      ClearIffFree(s, s.bookings[t.oldId].providerUserId, t.startAt, t.endAt, Some(t.oldId));
      if CanMove(s, t) {
        MovedFields(s, now, t);
      } else if s.bookings[t.oldId].status != Confirmed {
        TxRefusals(s, now, t);
      }
    }
  }

  lemma MovedFields(s: Store, now: int, t: Ticket)
    requires IdsFresh(s) && t.oldId in s.bookings
    ensures MovedNow(s, Moved(s, now, t), t.oldId, t.startAt, t.durationMin, now, t.cancelledBy, t.reason)
  {
    assert t.oldId != s.nextId;
  }

  lemma TxRefusals(s: Store, now: int, t: Ticket)
    requires Inv(s) && t.oldId in s.bookings && s.bookings[t.oldId].status != Confirmed
    ensures var r := RescheduleTx(s, now, t);
      r.store == s && (s.bookings[t.oldId].rescheduledToId.None? ==> r.result == Err(Conflict))
  {
  }

  /** What a call for `start` and `minutes` is refused with before anything about the time's availability is asked. */
  function MoveRefusal(s: Store, now: int, actor: Actor, id: Id, start: Option<int>, minutes: int): Option<Error> {
    if start.None? || start.value <= now then Some(BadRequest)
    else if id !in s.bookings then Some(NotFound)
    else if !MayAct(s.bookings[id], actor) then Some(Forbidden)
    else if s.bookings[id].status != Confirmed || s.bookings[id].startAt < now + DAY_MS then Some(BadRequest)
    else if minutes < 15 || minutes > 1440 then Some(BadRequest)
    else None
  }

  /** A call without a duration keeps the one of the booking. */
  lemma RescheduleExact(s: Store, now: int, actor: Actor, id: Id, input: RescheduleInput, offered: seq<Slot>,
                        minutes: int)
    requires Inv(s)
    requires match input.durationMin
      case Some(m) => minutes == m
      case None => id in s.bookings ==> minutes == s.bookings[id].durationMin
    ensures var r := Reschedule(s, now, actor, id, input, offered);
      match MoveRefusal(s, now, actor, id, input.startAt, minutes)
      case Some(error) => r == Outcome(s, Err(error))
      case None =>
        var start, end := input.startAt.value, input.startAt.value + minutes * 60_000;
        if Slot(start, end) in offered && Clear(s, s.bookings[id].providerUserId, start, end, Some(id)) then
          r.result == Ok(s.nextId) && MovedNow(s, r.store, id, start, minutes, now, actor.role, input.reason)
        else r == Outcome(s, Err(Conflict))
  {
    if MoveRefusal(s, now, actor, id, input.startAt, minutes).None? {
      var start, end := input.startAt.value, EndOf(input.startAt.value, minutes);
      ClearIffFree(s, s.bookings[id].providerUserId, start, end, Some(id));
      var check := RescheduleCheck(s, now, actor, id, input, offered);
      if check.Ok? { TxExact(s, now, check.value); }
    }
  }

  // ---- The recovery branch, on stores no run reaches ----

  /** A stored booking that would meet a unique index with the successor, the old booking being cancelled by then. */
  predicate InTheWay(s: Store, t: Ticket, id: Id)
    requires t.oldId in s.bookings && id in s.bookings
  {
    || (id != t.oldId && s.bookings[id].status != Cancelled
      && s.bookings[id].requestId == s.bookings[t.oldId].requestId)
    || s.bookings[id].rescheduledFromId == Some(t.oldId)
  }

  /** What the recovery query looks for. */
  predicate Recovers(s: Store, t: Ticket, id: Id)
    requires t.oldId in s.bookings && id in s.bookings
  {
    && id != t.oldId && s.bookings[id].status != Cancelled
    && (s.bookings[id].rescheduledFromId == Some(t.oldId)
        || (s.bookings[id].requestId == s.bookings[t.oldId].requestId
            && s.bookings[id].offerId == s.bookings[t.oldId].offerId && s.bookings[id].startAt == t.startAt))
  }

  lemma {:induction false} FindsLowest(s: Store, prior: Booking, t: Ticket, from: Id)
    ensures match FindRecovery(s, prior, t, from)
      case Some(id) => from <= id && id in s.bookings && RecoveryMatch(s.bookings[id], prior, t)
        && forall k | from <= k < id && k in s.bookings :: !RecoveryMatch(s.bookings[k], prior, t)
      case None => forall k | from <= k < s.nextId && k in s.bookings :: !RecoveryMatch(s.bookings[k], prior, t)
    decreases s.nextId - from
  {
    if from < s.nextId { FindsLowest(s, prior, t, from + 1); }
  }

  lemma WaysIff(s: Store, now: int, t: Ticket, id: Id)
    requires t.oldId in s.bookings && id in s.bookings
    ensures var prior := s.bookings[t.oldId];
      var stored := s.bookings[t.oldId := Superseded(prior, now, t)][id];
      && (KeyClash(stored, Successor(prior, t)) <==> InTheWay(s, t, id))
      && (RecoveryMatch(stored, prior, t) <==> Recovers(s, t, id))
  {
  }

  lemma BlockedIff(s: Store, now: int, t: Ticket)
    requires t.oldId in s.bookings
    ensures var prior := s.bookings[t.oldId];
      DuplicateKey(s.bookings[t.oldId := Superseded(prior, now, t)], Successor(prior, t))
      <==> exists id :: id in s.bookings && InTheWay(s, t, id)
  {
    var prior := s.bookings[t.oldId];
    var stored := s.bookings[t.oldId := Superseded(prior, now, t)];
    if DuplicateKey(stored, Successor(prior, t)) {
      var id :| id in stored && KeyClash(stored[id], Successor(prior, t));
      WaysIff(s, now, t, id);
    }
    if id :| id in s.bookings && InTheWay(s, t, id) {
      WaysIff(s, now, t, id);
      assert id in stored;
    }
  }

  /** The query finds the lowest booking that recovers. */
  lemma RecoveredIff(s: Store, now: int, t: Ticket)
    requires IdsFresh(s) && t.oldId in s.bookings
    ensures var prior := s.bookings[t.oldId];
      var saved := s.(bookings := s.bookings[t.oldId := Superseded(prior, now, t)]);
      match FindRecovery(saved, prior, t, 0)
      case Some(id) => id in s.bookings && Recovers(s, t, id) && forall k | k in s.bookings && k < id ::
        !Recovers(s, t, k)
      case None => forall k | k in s.bookings :: !Recovers(s, t, k)
  {
    var prior := s.bookings[t.oldId];
    FindsLowest(s.(bookings := s.bookings[t.oldId := Superseded(prior, now, t)]), prior, t, 0);
    forall k | k in s.bookings
      ensures RecoveryMatch(s.bookings[t.oldId := Superseded(prior, now, t)][k], prior, t) <==> Recovers(s, t, k)
    {
      WaysIff(s, now, t, k);
    }
  }

  /** The old booking is cancelled and linked to one that is stored already. */
  ghost predicate LinkedNow(s: Store, t: Store, id: Id, to: Id)
    requires id in s.bookings
  {
    && t.bookings.Keys == s.bookings.Keys && t.nextId == s.nextId && t.blackouts == s.blackouts
    && t.bookings[id].status == Cancelled && t.bookings[id].rescheduledToId == Some(to)
    && forall k | k in s.bookings && k != id :: t.bookings[k] == s.bookings[k]
  }

  /**
   * On any store with fresh ids: the move is answered with a new booking unless some booking is in the way; then
   * with the lowest that recovers, to which the cancelled old one is linked, and without one nothing is written.
   */
  lemma TxOnAnyStore(s: Store, now: int, t: Ticket)
    requires IdsFresh(s) && t.oldId in s.bookings && s.bookings[t.oldId].status == Confirmed
    requires Clear(s, s.bookings[t.oldId].providerUserId, t.startAt, t.endAt, Some(t.oldId))
    ensures var r := RescheduleTx(s, now, t);
      if forall id | id in s.bookings :: !InTheWay(s, t, id) then r.result == Ok(s.nextId)
      else if exists id :: id in s.bookings && Recovers(s, t, id) then
        && r.result.Ok? && r.result.value in s.bookings && Recovers(s, t, r.result.value)
        && (forall k | k in s.bookings && k < r.result.value :: !Recovers(s, t, k))
        && LinkedNow(s, r.store, t.oldId, r.result.value)
      else r == Outcome(s, Err(Conflict))
  {
    ClearIffFree(s, s.bookings[t.oldId].providerUserId, t.startAt, t.endAt, Some(t.oldId));
    BlockedIff(s, now, t);
    RecoveredIff(s, now, t);
  }
}
