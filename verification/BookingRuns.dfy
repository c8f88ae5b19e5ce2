/**
 * What every run of the booking operations keeps. A run interleaves whole calls with the bare
 * database writes of calls whose checks passed at some earlier moment.
 */
module BookingRuns {
  import opened Common
  import opened Bookings

  // ---- The invariant ----

  ghost predicate IdsFresh(s: Store) {
    forall id | id in s.bookings :: id < s.nextId
  }

  ghost predicate WellTimed(s: Store) {
    forall id | id in s.bookings ::
      ValidDuration(s.bookings[id].durationMin)
      && s.bookings[id].endAt == EndOf(s.bookings[id].startAt, s.bookings[id].durationMin)
  }

  predicate SameParties(x: Booking, y: Booking) {
    x.requestId == y.requestId && x.offerId == y.offerId
    && x.providerUserId == y.providerUserId && x.clientId == y.clientId
  }

  /** A forward link leads to a younger booking of the same parties that links back. */
  ghost predicate ForwardLinked(s: Store, id: Id)
    requires id in s.bookings
  {
    s.bookings[id].rescheduledToId.Some? ==>
      var to := s.bookings[id].rescheduledToId.value;
      id < to && to in s.bookings && s.bookings[to].rescheduledFromId == Some(id)
      && SameParties(s.bookings[id], s.bookings[to])
  }

  ghost predicate BackLinked(s: Store, id: Id)
    requires id in s.bookings
  {
    s.bookings[id].rescheduledFromId.Some? ==>
      var from := s.bookings[id].rescheduledFromId.value;
      from < id && from in s.bookings && s.bookings[from].rescheduledToId == Some(id)
  }

  ghost predicate Linked(s: Store) {
    forall id | id in s.bookings :: ForwardLinked(s, id) && BackLinked(s, id)
  }

  /** Only the last booking of a chain can be confirmed or completed. */
  ghost predicate OnlyTailsActive(s: Store) {
    forall id | id in s.bookings :: s.bookings[id].rescheduledToId.Some? ==> s.bookings[id].status == Cancelled
  }

  ghost predicate Compatible(x: Booking, y: Booking) {
    && (x.Active() && y.Active() && x.providerUserId == y.providerUserId ==> !x.Overlaps(y.startAt, y.endAt))
    && !KeyClash(x, y)
  }

  /** No two active bookings of a provider overlap and no unique index is violated. */
  ghost predicate PairwiseCompatible(s: Store) {
    forall i, j | i in s.bookings && j in s.bookings && i != j :: Compatible(s.bookings[i], s.bookings[j])
  }

  /** The part of the invariant that is about reschedule chains. */
  ghost predicate ChainInv(s: Store) {
    IdsFresh(s) && Linked(s) && OnlyTailsActive(s)
  }

  ghost predicate Inv(s: Store) {
    ChainInv(s) && WellTimed(s) && PairwiseCompatible(s)
  }

  // ---- Each write keeps it ----

  lemma CompatibleSymmetric(x: Booking, y: Booking)
    requires Compatible(x, y) && x.startAt < x.endAt && y.startAt < y.endAt
    ensures Compatible(y, x)
  {
  }

  /** Adding a booking compatible with every stored one keeps the store pairwise compatible. */
  lemma AddKeepsPairs(s: Store, id: Id, b: Booking)
    requires PairwiseCompatible(s) && WellTimed(s) && id !in s.bookings && b.startAt < b.endAt
    requires forall k | k in s.bookings :: Compatible(s.bookings[k], b)
    ensures PairwiseCompatible(s.(bookings := s.bookings[id := b]))
  {
    forall k | k in s.bookings ensures Compatible(b, s.bookings[k]) {
      CompatibleSymmetric(s.bookings[k], b);
    }
  }

  /** What the checks before an insert establish about a new booking. */
  ghost predicate Insertable(s: Store, b: Booking) {
    && ValidDuration(b.durationMin) && b.endAt == EndOf(b.startAt, b.durationMin)
    && b.rescheduledFromId.None? && b.rescheduledToId.None?
    && (b.Active() ==> !Taken(s.bookings, b.providerUserId, b.startAt, b.endAt, None))
    && !DuplicateKey(s.bookings, b)
  }

  lemma InsertKeepsPairs(s: Store, b: Booking)
    requires IdsFresh(s) && WellTimed(s) && PairwiseCompatible(s) && Insertable(s, b)
    ensures PairwiseCompatible(Insert(s, b))
  {
    forall k | k in s.bookings ensures Compatible(s.bookings[k], b) {
      assert !KeyClash(s.bookings[k], b);
      assert Some(k) != None;
    }
    AddKeepsPairs(s, s.nextId, b);
  }

  lemma InsertKeepsLinks(s: Store, b: Booking)
    requires ChainInv(s) && Insertable(s, b)
    ensures ChainInv(Insert(s, b))
  {
    var t := Insert(s, b);
    forall k | k in t.bookings ensures ForwardLinked(t, k) && BackLinked(t, k) {
      if k in s.bookings { assert ForwardLinked(s, k) && BackLinked(s, k); }
    }
  }

  lemma InsertKeeps(s: Store, b: Booking)
    requires Inv(s) && Insertable(s, b)
    ensures Inv(Insert(s, b))
  {
    InsertKeepsPairs(s, b);
    InsertKeepsLinks(s, b);
  }

  lemma SaveCancelledKeeps(s: Store, now: int, id: Id, cancelledBy: Role, reason: Option<string>)
    requires Inv(s)
    ensures Inv(SaveCancelled(s, now, id, cancelledBy, reason))
  {
    if id in s.bookings {
      RestatusKeeps(s, id, MarkCancelled(s.bookings[id], now, cancelledBy, reason));
    }
  }

  lemma CompleteUpdateKeeps(s: Store, id: Id)
    requires Inv(s)
    ensures Inv(CompleteUpdate(s, id).store)
  {
    if id in s.bookings && s.bookings[id].status == Confirmed {
      RestatusKeeps(s, id, s.bookings[id].(status := Completed));
    }
  }

  /** Replacing a booking by one of the same parties, times and links that is no more active than before. */
  ghost predicate Restatus(o: Booking, b: Booking) {
    && SameParties(o, b) && o.contractId == b.contractId
    && o.startAt == b.startAt && o.durationMin == b.durationMin && o.endAt == b.endAt
    && o.rescheduledFromId == b.rescheduledFromId && o.rescheduledToId == b.rescheduledToId
    && (b.Active() ==> o.Active()) && (o.status == Cancelled ==> b.status == Cancelled)
  }

  lemma RestatusCompatible(o: Booking, b: Booking, x: Booking)
    requires Restatus(o, b)
    ensures Compatible(o, x) ==> Compatible(b, x)
    ensures Compatible(x, o) ==> Compatible(x, b)
  {
  }

  lemma RestatusKeepsLinks(s: Store, id: Id, b: Booking)
    requires ChainInv(s) && id in s.bookings && Restatus(s.bookings[id], b)
    ensures ChainInv(s.(bookings := s.bookings[id := b]))
  {
    var t := s.(bookings := s.bookings[id := b]);
    forall k | k in t.bookings ensures ForwardLinked(t, k) && BackLinked(t, k) {
      assert ForwardLinked(s, k) && BackLinked(s, k);
    }
  }

  lemma RestatusKeeps(s: Store, id: Id, b: Booking)
    requires Inv(s) && id in s.bookings && Restatus(s.bookings[id], b)
    ensures Inv(s.(bookings := s.bookings[id := b]))
  {
    var t := s.(bookings := s.bookings[id := b]);
    RestatusKeepsLinks(s, id, b);
    forall i, j | i in t.bookings && j in t.bookings && i != j
      ensures Compatible(t.bookings[i], t.bookings[j])
    {
      assert Compatible(s.bookings[i], s.bookings[j]);
      if i == id { RestatusCompatible(s.bookings[id], b, s.bookings[j]); }
      if j == id { RestatusCompatible(s.bookings[id], b, s.bookings[i]); }
    }
  }

  // ---- reschedule ----

  /** The transaction meets a confirmed booking and a free slot. */
  predicate CanMove(s: Store, t: Ticket) {
    t.oldId in s.bookings && s.bookings[t.oldId].status == Confirmed
    && SlotFree(s, s.bookings[t.oldId].providerUserId, t.startAt, t.endAt, Some(t.oldId))
  }

  /** The store of a successful move: the old booking cancelled and linked, its successor inserted. */
  ghost function Moved(s: Store, now: int, t: Ticket): Store
    requires t.oldId in s.bookings
  {
    var o := s.bookings[t.oldId];
    Store(s.bookings[s.nextId := Successor(o, t)]
                    [t.oldId := Superseded(o, now, t).(rescheduledToId := Some(s.nextId))],
          s.blackouts, s.nextId + 1)
  }

  /** The insert inside the transaction never violates a unique index: the recovery branch is dead. */
  lemma RecoveryUnreachable(s: Store, now: int, t: Ticket)
    requires Inv(s) && t.oldId in s.bookings && s.bookings[t.oldId].status == Confirmed
    ensures var o := s.bookings[t.oldId];
      !DuplicateKey(s.bookings[t.oldId := Superseded(o, now, t)], Successor(o, t))
  {
    var o := s.bookings[t.oldId];
    forall id | id in s.bookings && id != t.oldId
      ensures !KeyClash(s.bookings[id], Successor(o, t))
    {
      assert Compatible(s.bookings[id], o);
      assert BackLinked(s, id);
    }
    assert BackLinked(s, t.oldId);
  }

  /** What the transaction can do in a reachable store: refuse, find the earlier move, or move. */
  lemma RescheduleTxCases(s: Store, now: int, t: Ticket)
    requires Inv(s)
    ensures var r := RescheduleTx(s, now, t);
      && (CanMove(s, t) ==> r == Outcome(Moved(s, now, t), Ok(s.nextId)))
      && (!CanMove(s, t) ==>
            && r.store == s
            && (r.result.Ok? <==> t.oldId in s.bookings && s.bookings[t.oldId].rescheduledToId.Some?)
            && (r.result.Ok? ==> s.bookings[t.oldId].rescheduledToId == Some(r.result.value)))
  {
    if t.oldId in s.bookings {
      if s.bookings[t.oldId].status == Confirmed {
        RecoveryUnreachable(s, now, t);
        var r := RescheduleTx(s, now, t);
        if SlotFree(s, s.bookings[t.oldId].providerUserId, t.startAt, t.endAt, Some(t.oldId)) {
          assert r.store.bookings == Moved(s, now, t).bookings;
        }
      } else {
        assert ForwardLinked(s, t.oldId);
      }
    }
  }

  lemma MovedKeepsPairs(s: Store, now: int, t: Ticket)
    requires Inv(s) && CanMove(s, t)
    ensures PairwiseCompatible(Moved(s, now, t))
  {
    var o := s.bookings[t.oldId];
    var n, c := Successor(o, t), Superseded(o, now, t);
    var c' := c.(rescheduledToId := Some(s.nextId));
    var mid := s.(bookings := s.bookings[t.oldId := c']);
    forall i, j | i in mid.bookings && j in mid.bookings && i != j
      ensures Compatible(mid.bookings[i], mid.bookings[j])
    {
      assert Compatible(s.bookings[i], s.bookings[j]);
    }
    RecoveryUnreachable(s, now, t);
    forall k | k in mid.bookings ensures Compatible(mid.bookings[k], n) {
      assert !KeyClash(s.bookings[t.oldId := c][k], n);
      if k != t.oldId { assert Some(k) != Some(t.oldId); }
    }
    AddKeepsPairs(mid, s.nextId, n);
    assert mid.bookings[s.nextId := n] == Moved(s, now, t).bookings;
  }

  lemma MovedKeepsLinks(s: Store, now: int, t: Ticket)
    requires IdsFresh(s) && Linked(s) && OnlyTailsActive(s)
    requires t.oldId in s.bookings && s.bookings[t.oldId].status == Confirmed
    ensures Linked(Moved(s, now, t))
  {
    var m := Moved(s, now, t);
    forall k | k in m.bookings ensures ForwardLinked(m, k) && BackLinked(m, k) {
      if k == s.nextId {
        assert m.bookings[k].rescheduledFromId == Some(t.oldId);
      } else {
        assert ForwardLinked(s, k) && BackLinked(s, k);
        if k != t.oldId {
          assert m.bookings[k] == s.bookings[k];
          assert k < s.nextId;
        }
      }
    }
  }

  lemma MovedKeepsTails(s: Store, now: int, t: Ticket)
    requires IdsFresh(s) && OnlyTailsActive(s) && t.oldId in s.bookings
    ensures IdsFresh(Moved(s, now, t)) && OnlyTailsActive(Moved(s, now, t))
  {
  }

  lemma MovedKeepsTimes(s: Store, now: int, t: Ticket)
    requires WellTimed(s) && CanMove(s, t)
    ensures WellTimed(Moved(s, now, t))
  {
  }

  lemma MovedKeeps(s: Store, now: int, t: Ticket)
    requires Inv(s) && CanMove(s, t)
    ensures Inv(Moved(s, now, t))
  {
    MovedKeepsTails(s, now, t);
    MovedKeepsTimes(s, now, t);
    MovedKeepsPairs(s, now, t);
    MovedKeepsLinks(s, now, t);
  }

  lemma RescheduleTxKeeps(s: Store, now: int, t: Ticket)
    requires Inv(s)
    ensures Inv(RescheduleTx(s, now, t).store)
  {
    RescheduleTxCases(s, now, t);
    if CanMove(s, t) {
      MovedKeeps(s, now, t);
    }
  }

  // ---- Runs ----

  /**
   * One step of a run. The Commit steps are the writes of calls that passed their checks at any
   * earlier moment; the blackout steps are the provider's own calls.
   */
  datatype Step =
    | CallCreate(now: int, clientId: string, create: CreateInput, offered: seq<Slot>)
    | CallCancel(now: int, actor: Actor, id: Id, reason: Option<string>, atomic: bool)
    | CallReschedule(now: int, actor: Actor, id: Id, move: RescheduleInput, offered: seq<Slot>)
    | CallComplete(now: int, actor: Actor, id: Id)
    | CommitCancel(now: int, id: Id, cancelledBy: Role, reason: Option<string>, atomic: bool)
    | CommitReschedule(now: int, ticket: Ticket)
    | CommitComplete(id: Id)
    | SetBlackouts(blackouts: seq<Blackout>)

  function Apply(s: Store, step: Step): Store {
    match step
    case CallCreate(now, clientId, create, offered) => CreateByClient(s, now, clientId, create, offered).store
    case CallCancel(now, actor, id, reason, atomic) => Cancel(s, now, actor, id, reason, atomic).store
    case CallReschedule(now, actor, id, move, offered) => Reschedule(s, now, actor, id, move, offered).store
    case CallComplete(now, actor, id) => Complete(s, now, actor, id).store
    case CommitCancel(now, id, cancelledBy, reason, atomic) =>
      if atomic then CancelAtomic(s, now, id, cancelledBy, reason).store
      else SaveCancelled(s, now, id, cancelledBy, reason)
    case CommitReschedule(now, ticket) => RescheduleTx(s, now, ticket).store
    case CommitComplete(id) => CompleteUpdate(s, id).store
    case SetBlackouts(blackouts) => s.(blackouts := blackouts)
  }

  function Run(s: Store, steps: seq<Step>): Store
    decreases |steps|
  {
    if steps == [] then s else Run(Apply(s, steps[0]), steps[1..])
  }

  lemma ApplyKeeps(s: Store, step: Step)
    requires Inv(s)
    ensures Inv(Apply(s, step))
  {
    match step
    case CallCreate(now, clientId, input, offered) =>
      var r := CreateByClient(s, now, clientId, input, offered);
      if r.result.Ok? {
        var minutes := if input.durationMin.Some? then input.durationMin.value else 60;
        InsertKeeps(s, NewBooking(clientId, input, input.startAt.value, minutes));
      }
    case CallCancel(now, actor, id, reason, atomic) =>
      SaveCancelledKeeps(s, now, id, actor.role, reason);
    case CallReschedule(now, actor, id, input, offered) =>
      var check := RescheduleCheck(s, now, actor, id, input, offered);
      if check.Ok? { RescheduleTxKeeps(s, now, check.value); }
    case CallComplete(now, actor, id) =>
      CompleteUpdateKeeps(s, id);
    case CommitCancel(now, id, cancelledBy, reason, atomic) =>
      SaveCancelledKeeps(s, now, id, cancelledBy, reason);
    case CommitReschedule(now, ticket) =>
      RescheduleTxKeeps(s, now, ticket);
    case CommitComplete(id) =>
      CompleteUpdateKeeps(s, id);
    case SetBlackouts(_) =>
      BlackoutsIrrelevant(s, Apply(s, step));
  }

  lemma BlackoutsIrrelevant(s: Store, t: Store)
    requires Inv(s) && t.bookings == s.bookings && t.nextId == s.nextId
    ensures Inv(t)
  {
    forall id | id in t.bookings ensures ForwardLinked(t, id) && BackLinked(t, id) {
      assert ForwardLinked(s, id) && BackLinked(s, id);
    }
  }

  /** Safety: the invariant holds after every run, whatever the interleaving. */
  lemma {:induction false} RunKeepsInv(s: Store, steps: seq<Step>)
    requires Inv(s)
    ensures Inv(Run(s, steps))
    decreases |steps|
  {
    if steps != [] {
      ApplyKeeps(s, steps[0]);
      RunKeepsInv(Apply(s, steps[0]), steps[1..]);
    }
  }

  lemma EmptyStoreInv(blackouts: seq<Blackout>)
    ensures Inv(Store(map[], blackouts, 0))
  {
  }

  /** Some run has led here from a store without bookings. */
  ghost predicate Reachable(s: Store) {
    exists blackouts, steps :: s == Run(Store(map[], blackouts, 0), steps)
  }

  lemma {:induction false} RunSnoc(s: Store, steps: seq<Step>, last: Step)
    ensures Run(s, steps + [last]) == Apply(Run(s, steps), last)
    decreases |steps|
  {
    if steps == [] {
      assert [] + [last] == [last] && [last][1..] == [];
    } else {
      RunSnoc(Apply(s, steps[0]), steps[1..], last);
      assert (steps + [last])[1..] == steps[1..] + [last];
    }
  }

  lemma ReachableNext(s: Store, step: Step)
    ensures Reachable(s) ==> Reachable(Apply(s, step))
  {
    if Reachable(s) {
      var blackouts, steps :| s == Run(Store(map[], blackouts, 0), steps);
      RunSnoc(Store(map[], blackouts, 0), steps, step);
    }
  }

  lemma ReachableInv(s: Store)
    requires Reachable(s)
    ensures Inv(s)
  {
    var blackouts, steps :| s == Run(Store(map[], blackouts, 0), steps);
    EmptyStoreInv(blackouts);
    RunKeepsInv(Store(map[], blackouts, 0), steps);
  }

  /** In any reachable store one provider's active bookings are disjoint and a request has at most one. */
  lemma ReachableDisjoint(blackouts: seq<Blackout>, steps: seq<Step>, i: Id, j: Id)
    ensures var s := Run(Store(map[], blackouts, 0), steps);
      i in s.bookings && j in s.bookings && i != j && s.bookings[i].Active() && s.bookings[j].Active() ==>
        && s.bookings[i].requestId != s.bookings[j].requestId
        && (s.bookings[i].providerUserId == s.bookings[j].providerUserId ==>
              s.bookings[i].endAt <= s.bookings[j].startAt || s.bookings[j].endAt <= s.bookings[i].startAt)
  {
    EmptyStoreInv(blackouts);
    RunKeepsInv(Store(map[], blackouts, 0), steps);
    var s := Run(Store(map[], blackouts, 0), steps);
    if i in s.bookings && j in s.bookings && i != j {
      assert Compatible(s.bookings[i], s.bookings[j]);
    }
  }

  // ---- Two reschedules of one booking ----

  /** A forward link, once written, is never changed or removed. */
  lemma LinkStable(s: Store, step: Step, id: Id)
    requires Inv(s) && id in s.bookings && s.bookings[id].rescheduledToId.Some?
    ensures var t := Apply(s, step);
      id in t.bookings && t.bookings[id].rescheduledToId == s.bookings[id].rescheduledToId
  {
    match step
    case CallReschedule(now, actor, k, input, offered) =>
      var check := RescheduleCheck(s, now, actor, k, input, offered);
      if check.Ok? { RescheduleTxCases(s, now, check.value); }
    case CommitReschedule(now, ticket) =>
      RescheduleTxCases(s, now, ticket);
    case _ =>
  }

  lemma {:induction false} LinkStableOverRun(s: Store, steps: seq<Step>, id: Id)
    requires Inv(s) && id in s.bookings && s.bookings[id].rescheduledToId.Some?
    ensures var t := Run(s, steps);
      id in t.bookings && t.bookings[id].rescheduledToId == s.bookings[id].rescheduledToId
    decreases |steps|
  {
    if steps != [] {
      LinkStable(s, steps[0], id);
      ApplyKeeps(s, steps[0]);
      LinkStableOverRun(Apply(s, steps[0]), steps[1..], id);
    }
  }

  /**
   * Two calls pass their checks on the same booking and the first one moves it. However long the second
   * waits and whatever runs in between, its transaction answers with the first successor and writes nothing.
   */
  lemma SecondRescheduleFindsFirst(s: Store, now1: int, t1: Ticket, steps: seq<Step>, now2: int, t2: Ticket)
    requires Inv(s) && t1.oldId == t2.oldId && t1.oldId in s.bookings && s.bookings[t1.oldId].status == Confirmed
    requires RescheduleTx(s, now1, t1).result.Ok?
    ensures var later := Run(RescheduleTx(s, now1, t1).store, steps);
      RescheduleTx(later, now2, t2) == Outcome(later, Ok(s.nextId))
  {
    RescheduleTxCases(s, now1, t1);
    RescheduleTxKeeps(s, now1, t1);
    var moved := RescheduleTx(s, now1, t1).store;
    LinkStableOverRun(moved, steps, t1.oldId);
    RunKeepsInv(moved, steps);
    var later := Run(moved, steps);
    assert ForwardLinked(later, t1.oldId);
    RescheduleTxCases(later, now2, t2);
  }

  /**
   * Completion is final except for one write: the bare document save of a cancellation. That such a save
   * can arrive that late, and how late it must be, is stated by the two lemmas below.
   */
  lemma CompletionUndoneOnlyByStaleSave(s: Store, step: Step, id: Id)
    requires Inv(s) && id in s.bookings && s.bookings[id].status == Completed
    ensures id in Apply(s, step).bookings
    ensures Apply(s, step).bookings[id].status != Completed <==>
      step.CommitCancel? && step.id == id && !step.atomic
  {
    match step
    case CallReschedule(now, actor, k, input, offered) =>
      var check := RescheduleCheck(s, now, actor, k, input, offered);
      if check.Ok? { RescheduleTxCases(s, now, check.value); }
    case CommitReschedule(now, ticket) =>
      RescheduleTxCases(s, now, ticket);
    case _ =>
  }

  // ---- What a run leaves alone ----

  /** Who may see and change a booking: an administrator, or its client or provider acting as such. */
  predicate MayAct(b: Booking, actor: Actor) {
    || actor.role == Admin
    || (actor.role == Client && actor.userId == b.clientId)
    || (actor.role == Provider && actor.userId == b.providerUserId)
  }

  /** The new version of a booking keeps its parties, its time, its contract and its origin, and stays cancelled. */
  ghost predicate Persists(o: Booking, b: Booking) {
    && SameParties(o, b) && o.contractId == b.contractId && o.rescheduledFromId == b.rescheduledFromId
    && o.startAt == b.startAt && o.durationMin == b.durationMin && o.endAt == b.endAt
    && (o.status == Cancelled ==> b.status == Cancelled)
  }

  lemma CreatePersists(s: Store, now: int, clientId: string, input: CreateInput, offered: seq<Slot>, id: Id)
    requires Inv(s) && id in s.bookings
    ensures var t := CreateByClient(s, now, clientId, input, offered).store;
      id in t.bookings && t.bookings[id] == s.bookings[id]
  {
  }

  lemma TxPersists(s: Store, now: int, t: Ticket, id: Id)
    requires Inv(s) && id in s.bookings
    ensures var after := RescheduleTx(s, now, t).store;
      id in after.bookings && Persists(s.bookings[id], after.bookings[id])
  {
    RescheduleTxCases(s, now, t);
  }

  lemma WritePersists(s: Store, now: int, k: Id, cancelledBy: Role, reason: Option<string>, id: Id)
    requires id in s.bookings
    ensures var t := SaveCancelled(s, now, k, cancelledBy, reason);
      id in t.bookings && Persists(s.bookings[id], t.bookings[id])
    ensures var t := CompleteUpdate(s, k).store;
      id in t.bookings && Persists(s.bookings[id], t.bookings[id])
  {
  }

  lemma CancelShape(s: Store, now: int, actor: Actor, k: Id, reason: Option<string>, atomic: bool)
    ensures var t := Cancel(s, now, actor, k, reason, atomic).store;
      t == s || t == SaveCancelled(s, now, k, actor.role, reason)
  {
  }

  lemma CancelAtomicShape(s: Store, now: int, k: Id, cancelledBy: Role, reason: Option<string>)
    ensures var t := CancelAtomic(s, now, k, cancelledBy, reason).store;
      t == s || t == SaveCancelled(s, now, k, cancelledBy, reason)
  {
  }

  lemma CompleteShape(s: Store, now: int, actor: Actor, k: Id)
    ensures var t := Complete(s, now, actor, k).store; t == s || t == CompleteUpdate(s, k).store
  {
  }

  lemma StepPersists(s: Store, step: Step, id: Id)
    requires Inv(s) && id in s.bookings
    ensures id in Apply(s, step).bookings && Persists(s.bookings[id], Apply(s, step).bookings[id])
  {
    match step
    case CallCreate(now, clientId, input, offered) => CreatePersists(s, now, clientId, input, offered, id);
    case CallCancel(now, actor, k, reason, atomic) =>
      CancelShape(s, now, actor, k, reason, atomic);
      WritePersists(s, now, k, actor.role, reason, id);
    case CallReschedule(now, actor, k, input, offered) =>
      var check := RescheduleCheck(s, now, actor, k, input, offered);
      if check.Ok? { TxPersists(s, now, check.value, id); }
    case CallComplete(now, actor, k) =>
      CompleteShape(s, now, actor, k);
      WritePersists(s, now, k, actor.role, None, id);
    case CommitCancel(now, k, cancelledBy, reason, atomic) =>
      CancelAtomicShape(s, now, k, cancelledBy, reason);
      WritePersists(s, now, k, cancelledBy, reason, id);
    case CommitReschedule(now, ticket) => TxPersists(s, now, ticket, id);
    case CommitComplete(k) => WritePersists(s, 0, k, Admin, None, id);
    case SetBlackouts(_) =>
  }

  /** No run removes a booking, moves it in time, hands it to other parties or revives a cancelled one. */
  lemma {:induction false} RunPersists(s: Store, steps: seq<Step>, id: Id)
    requires Inv(s) && id in s.bookings
    ensures id in Run(s, steps).bookings && Persists(s.bookings[id], Run(s, steps).bookings[id])
    decreases |steps|
  {
    if steps != [] {
      StepPersists(s, steps[0], id);
      ApplyKeeps(s, steps[0]);
      RunPersists(Apply(s, steps[0]), steps[1..], id);
    }
  }

  /**
   * A cancel call writes exactly when someone who may act cancels a confirmed booking at least 24 hours ahead, on
   * either path.
   */
  lemma CancelWritesIff(s: Store, now: int, actor: Actor, id: Id, reason: Option<string>, atomic: bool)
    ensures Cancel(s, now, actor, id, reason, atomic).store != s <==>
      && id in s.bookings && MayAct(s.bookings[id], actor) && s.bookings[id].status == Confirmed
      && s.bookings[id].startAt - now >= 24 * HOUR_MS
    ensures Cancel(s, now, actor, id, reason, true) == Cancel(s, now, actor, id, reason, false)
  {
    if id in s.bookings && s.bookings[id].status == Confirmed {
      assert SaveCancelled(s, now, id, actor.role, reason).bookings[id].status == Cancelled;
    }
  }

  /** A complete call writes exactly when the provider's side completes a confirmed booking that has ended. */
  lemma CompleteWritesIff(s: Store, now: int, actor: Actor, id: Id)
    ensures Complete(s, now, actor, id).store != s <==>
      && id in s.bookings && actor.role != Client && MayAct(s.bookings[id], actor)
      && s.bookings[id].status == Confirmed && s.bookings[id].endAt <= now
  {
    if id in s.bookings && s.bookings[id].status == Confirmed {
      assert s.bookings[id := s.bookings[id].(status := Completed)][id].status == Completed;
    }
  }

  /**
   * A reschedule call writes exactly when someone who may act moves a confirmed booking in time to a slot that is
   * offered and free.
   */
  lemma RescheduleWritesIff(s: Store, now: int, actor: Actor, id: Id, input: RescheduleInput, offered: seq<Slot>,
                            minutes: int)
    requires Inv(s) && id in s.bookings
    requires minutes == if input.durationMin.Some? then input.durationMin.value else s.bookings[id].durationMin
    ensures Reschedule(s, now, actor, id, input, offered).store != s <==>
      && MayAct(s.bookings[id], actor) && s.bookings[id].status == Confirmed
      && s.bookings[id].startAt - now >= 24 * HOUR_MS
      && input.startAt.Some? && input.startAt.value > now && ValidDuration(minutes)
      && Slot(input.startAt.value, EndOf(input.startAt.value, minutes)) in offered
      && SlotFree(s, s.bookings[id].providerUserId, input.startAt.value, EndOf(input.startAt.value, minutes), Some(id))
  {
    var check := RescheduleCheck(s, now, actor, id, input, offered);
    if check.Ok? {
      RescheduleTxCases(s, now, check.value);
      assert Moved(s, now, check.value).nextId != s.nextId;
    }
  }

  // ---- A cancellation overtaken by a completion ----

  /**
   * A cancellation passes its checks, any run follows, and then the booking is completed by a call: the
   * completion comes at least 24 hours and the length of the booking after the checks.
   */
  lemma CompletionFollowsCheckLate(s: Store, checkedAt: int, actor: Actor, id: Id, steps: seq<Step>, completedAt: int,
                                   provider: Actor)
    requires Inv(s) && CancelCheck(s, checkedAt, actor, id) == Ok(true)
    requires Complete(Run(s, steps), completedAt, provider, id).store != Run(s, steps)
    ensures completedAt - checkedAt >= 24 * HOUR_MS + s.bookings[id].durationMin * MINUTE_MS
  {
    RunPersists(s, steps, id);
    CompleteWritesIff(Run(s, steps), completedAt, provider, id);
  }

  /**
   * Every confirmed booking whose cancellation has passed its checks can still be completed once it has
   * ended, and the save of that cancellation then undoes the completion.
   */
  lemma StaleSaveUndoesCompletion(s: Store, checkedAt: int, actor: Actor, id: Id, completedAt: int, savedAt: int,
                                  reason: Option<string>)
    requires CancelCheck(s, checkedAt, actor, id) == Ok(true) && completedAt >= s.bookings[id].endAt
    ensures var done := Complete(s, completedAt, Actor(s.bookings[id].providerUserId, Provider), id);
      && done.result.Ok? && id in done.store.bookings && done.store.bookings[id].status == Completed
      && SaveCancelled(done.store, savedAt, id, actor.role, reason).bookings[id].status == Cancelled
  {
  }

  const FIRST_INPUT := CreateInput("request", "offer", None, "provider", Some(48 * HOUR_MS), None)
  const CREATE_FIRST := CallCreate(0, "client", FIRST_INPUT, [Slot(48 * HOUR_MS, 49 * HOUR_MS)])
  const COMPLETE_FIRST := CallComplete(49 * HOUR_MS, Actor("provider", Provider), 0)
  const SAVE_FIRST := CommitCancel(49 * HOUR_MS, 0, Client, None, false)

  /** Such a run from the empty store: booked, the cancellation checked, completed, and then the late save. */
  lemma StaleSaveRun()
    ensures var empty := Store(map[], [], 0);
      var booked := Run(empty, [CREATE_FIRST]);
      var completed := Run(empty, [CREATE_FIRST, COMPLETE_FIRST]);
      var saved := Run(empty, [CREATE_FIRST, COMPLETE_FIRST, SAVE_FIRST]);
      && CancelCheck(booked, 24 * HOUR_MS, Actor("client", Client), 0) == Ok(true)
      && 0 in completed.bookings && completed.bookings[0].status == Completed
      && 0 in saved.bookings && saved.bookings[0].status == Cancelled
  {
    var empty := Store(map[], [], 0);
    var booked := Apply(empty, CREATE_FIRST);
    assert CREATE_FIRST.offered[0] == Slot(48 * HOUR_MS, 49 * HOUR_MS);
    assert booked.bookings[0].endAt == 49 * HOUR_MS;
    var completed := Apply(booked, COMPLETE_FIRST);
    StaleSaveUndoesCompletion(booked, 24 * HOUR_MS, Actor("client", Client), 0, 49 * HOUR_MS, 49 * HOUR_MS, None);
    RunThree(empty, CREATE_FIRST, COMPLETE_FIRST, SAVE_FIRST);
  }

  lemma RunThree(s: Store, a: Step, b: Step, c: Step)
    ensures Run(s, [a]) == Apply(s, a)
    ensures Run(s, [a, b]) == Apply(Apply(s, a), b)
    ensures Run(s, [a, b, c]) == Apply(Apply(Apply(s, a), b), c)
  {
    assert [a][1..] == [] && [b][1..] == [] && [c][1..] == [];
    assert [a, b][1..] == [b] && [b, c][1..] == [c] && [a, b, c][1..] == [b, c];
    assert Run(Apply(s, a), [b]) == Run(Apply(Apply(s, a), b), []);
    assert Run(Apply(s, a), [b, c]) == Run(Apply(Apply(s, a), b), [c]);
    assert Run(Apply(Apply(s, a), b), [c]) == Run(Apply(Apply(Apply(s, a), b), c), []);
  }
}
