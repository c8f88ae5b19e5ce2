/**
 * The booking collection and the four write operations of the bookings service.
 * Ids are fresh naturals, times are milliseconds, a whole transaction either commits or leaves
 * the store as it was.
 */
module Bookings {
  import opened Common

  type Id = nat

  datatype Status = Confirmed | Cancelled | Completed
  datatype Role = Client | Provider | Admin
  datatype Actor = Actor(userId: string, role: Role)

  datatype Booking = Booking(
    requestId: string, offerId: string, contractId: Option<string>,
    providerUserId: string, clientId: string,
    startAt: int, durationMin: int, endAt: int,
    status: Status, cancelledAt: Option<int>, cancelledBy: Option<Role>, cancelReason: Option<string>,
    rescheduledFromId: Option<Id>, rescheduledToId: Option<Id>,
    rescheduledAt: Option<int>, rescheduleReason: Option<string>)
  {
    predicate Active() { status == Confirmed || status == Completed }

    predicate Overlaps(lo: int, hi: int) { startAt < hi && endAt > lo }

    predicate OwnedBy(actor: Actor) {
      match actor.role
      case Admin => true
      case Client => clientId == actor.userId
      case Provider => providerUserId == actor.userId
    }
  }

  datatype Blackout = Blackout(providerUserId: string, startAt: int, endAt: int, isActive: bool)

  datatype Slot = Slot(startAt: int, endAt: int)

  datatype Store = Store(bookings: map<Id, Booking>, blackouts: seq<Blackout>, nextId: Id)

  /** What a call leaves behind and what it answers. */
  datatype Outcome<+T> = Outcome(store: Store, result: Result<T>)

  const CANCEL_MIN_HOURS := 24
  const RESCHEDULE_MIN_HOURS := 24

  predicate ValidDuration(minutes: int) { 15 <= minutes <= 24 * 60 }

  function EndOf(startAt: int, minutes: int): int { startAt + minutes * MINUTE_MS }

  // ---- Queries ----

  /** Some active booking of the provider, other than `excluded`, overlaps [lo, hi). */
  predicate Taken(bookings: map<Id, Booking>, provider: string, lo: int, hi: int, excluded: Option<Id>) {
    exists id | id in bookings ::
      && Some(id) != excluded
      && bookings[id].providerUserId == provider && bookings[id].Active() && bookings[id].Overlaps(lo, hi)
  }

  predicate BlackedOut(blackouts: seq<Blackout>, provider: string, lo: int, hi: int) {
    exists b | b in blackouts ::
      b.providerUserId == provider && b.isActive && b.startAt < hi && b.endAt > lo
  }

  predicate SlotFree(s: Store, provider: string, lo: int, hi: int, excluded: Option<Id>) {
    !Taken(s.bookings, provider, lo, hi, excluded) && !BlackedOut(s.blackouts, provider, lo, hi)
  }

  /** The four unique indexes of the collection: two documents that may not coexist. */
  predicate KeyClash(x: Booking, y: Booking) {
    || (x.Active() && y.Active() && x.requestId == y.requestId)
    || (x.Active() && y.Active()
        && x.requestId == y.requestId && x.offerId == y.offerId && x.startAt == y.startAt)
    || (x.contractId.Some? && x.contractId == y.contractId)
    || (x.rescheduledFromId.Some? && x.rescheduledFromId == y.rescheduledFromId)
  }

  predicate DuplicateKey(bookings: map<Id, Booking>, b: Booking) {
    exists id | id in bookings :: KeyClash(bookings[id], b)
  }

  function Insert(s: Store, b: Booking): Store {
    s.(bookings := s.bookings[s.nextId := b], nextId := s.nextId + 1)
  }

  // ---- createByClient ----

  datatype CreateInput = CreateInput(
    requestId: string, offerId: string, contractId: Option<string>, providerUserId: string,
    startAt: Option<int>, durationMin: Option<int>)

  function NewBooking(clientId: string, input: CreateInput, start: int, minutes: int): Booking {
    Booking(input.requestId, input.offerId, input.contractId, input.providerUserId, clientId,
            start, minutes, EndOf(start, minutes), Confirmed, None, None, None, None, None, None, None)
  }

  /** `offered` is the answer of the slot generator for the day of the start. */
  function CreateByClient(s: Store, now: int, clientId: string, input: CreateInput, offered: seq<Slot>): Outcome<Id> {
    var minutes := if input.durationMin.Some? then input.durationMin.value else 60;
    if input.requestId == "" || input.offerId == "" || input.providerUserId == ""
       || input.contractId == Some("") || input.startAt.None? || input.startAt.value <= now
       || !ValidDuration(minutes)
    then Outcome(s, Err(BadRequest)) else
    var start, end := input.startAt.value, EndOf(input.startAt.value, minutes);
    var booking := NewBooking(clientId, input, start, minutes);
    if Slot(start, end) !in offered
       || !SlotFree(s, input.providerUserId, start, end, None)
       || DuplicateKey(s.bookings, booking)
    then Outcome(s, Err(Conflict))
    else Outcome(Insert(s, booking), Ok(s.nextId))
  }

  // ---- cancel ----

  function MarkCancelled(b: Booking, now: int, cancelledBy: Role, reason: Option<string>): Booking {
    b.(status := Cancelled, cancelledAt := Some(now), cancelledBy := Some(cancelledBy), cancelReason := reason)
  }

  /** The write of the document path: the loaded document is saved whatever the stored status is by then. */
  function SaveCancelled(s: Store, now: int, id: Id, cancelledBy: Role, reason: Option<string>): Store {
    if id in s.bookings
    then s.(bookings := s.bookings[id := MarkCancelled(s.bookings[id], now, cancelledBy, reason)])
    else s
  }

  /** The write of the atomic path: only a confirmed booking is updated, the rest is re-read. */
  function CancelAtomic(s: Store, now: int, id: Id, cancelledBy: Role, reason: Option<string>): Outcome<()> {
    if id !in s.bookings then Outcome(s, Err(NotFound))
    else match s.bookings[id].status
      case Confirmed => Outcome(SaveCancelled(s, now, id, cancelledBy, reason), Ok(()))
      case Cancelled => Outcome(s, Ok(()))
      case Completed => Outcome(s, Err(Conflict))
  }

  /** The reads and rules before the write: Ok(false) when there is nothing left to do. */
  function CancelCheck(s: Store, now: int, actor: Actor, id: Id): Result<bool> {
    if id !in s.bookings then Err(NotFound)
    else if !s.bookings[id].OwnedBy(actor) then Err(Forbidden)
    else if s.bookings[id].status == Cancelled then Ok(false)
    else if s.bookings[id].status == Completed then Err(BadRequest)
    else if s.bookings[id].startAt - now < CANCEL_MIN_HOURS * HOUR_MS then Err(BadRequest)
    else Ok(true)
  }

  function Cancel(s: Store, now: int, actor: Actor, id: Id, reason: Option<string>, atomic: bool): Outcome<()> {
    var check := CancelCheck(s, now, actor, id);
    if check.Err? then Outcome(s, Err(check.error))
    else if !check.value then Outcome(s, Ok(()))
    else if atomic then CancelAtomic(s, now, id, actor.role, reason)
    else Outcome(SaveCancelled(s, now, id, actor.role, reason), Ok(()))
  }

  // ---- reschedule ----

  datatype RescheduleInput = RescheduleInput(startAt: Option<int>, durationMin: Option<int>, reason: Option<string>)

  datatype TicketData = TicketData(
    oldId: Id, startAt: int, durationMin: int, endAt: int, cancelledBy: Role, reason: Option<string>)

  /** What the pre-check hands to the transaction. */
  type Ticket = t: TicketData | ValidDuration(t.durationMin) && t.endAt == EndOf(t.startAt, t.durationMin)
    witness TicketData(0, 0, 15, 900000, Admin, None)

  function RescheduleCheck(s: Store, now: int, actor: Actor, id: Id, input: RescheduleInput, offered: seq<Slot>)
    : Result<Ticket>
  {
    if input.startAt.None? || input.startAt.value <= now then Err(BadRequest)
    else if id !in s.bookings then Err(NotFound)
    else
      var prior, start := s.bookings[id], input.startAt.value;
      if !prior.OwnedBy(actor) then Err(Forbidden)
      else if prior.status != Confirmed || prior.startAt - now < RESCHEDULE_MIN_HOURS * HOUR_MS then Err(BadRequest)
      else
        var minutes := if input.durationMin.Some? then input.durationMin.value else prior.durationMin;
        if !ValidDuration(minutes) then Err(BadRequest)
        else
          var end := EndOf(start, minutes);
          if Slot(start, end) !in offered || !SlotFree(s, prior.providerUserId, start, end, Some(id))
          then Err(Conflict)
          else Ok(TicketData(id, start, minutes, end, actor.role, input.reason))
  }

  function Successor(prior: Booking, t: Ticket): Booking {
    Booking(prior.requestId, prior.offerId, None, prior.providerUserId, prior.clientId,
            t.startAt, t.durationMin, t.endAt, Confirmed, None, None, None, Some(t.oldId), None, None, None)
  }

  /** The predecessor as the transaction first saves it: cancelled, not yet linked forward. */
  function Superseded(prior: Booking, now: int, t: Ticket): Booking {
    MarkCancelled(prior, now, t.cancelledBy, t.reason).(rescheduledAt := Some(now), rescheduleReason := t.reason)
  }

  /** The query of the duplicate-key recovery branch. */
  predicate RecoveryMatch(b: Booking, prior: Booking, t: Ticket) {
    && b.Active()
    && (b.rescheduledFromId == Some(t.oldId)
        || (b.requestId == prior.requestId && b.offerId == prior.offerId && b.startAt == t.startAt))
  }

  /** The first match at or after `from` in natural order. */
  function FindRecovery(s: Store, prior: Booking, t: Ticket, from: Id): Option<Id>
    decreases s.nextId - from
  {
    if from >= s.nextId then None
    else if from in s.bookings && RecoveryMatch(s.bookings[from], prior, t) then Some(from)
    else FindRecovery(s, prior, t, from + 1)
  }

  /** The transaction: every exit with an error rolls back to the store it started from. */
  function RescheduleTx(s: Store, now: int, t: Ticket): Outcome<Id> {
    if t.oldId !in s.bookings then Outcome(s, Err(NotFound)) else
    var prior := s.bookings[t.oldId];
    if prior.status != Confirmed then
      if prior.rescheduledToId.Some? && prior.rescheduledToId.value in s.bookings
      then Outcome(s, Ok(prior.rescheduledToId.value))
      else Outcome(s, Err(Conflict))
    else if !SlotFree(s, prior.providerUserId, t.startAt, t.endAt, Some(t.oldId)) then Outcome(s, Err(Conflict))
    else
      var saved := s.(bookings := s.bookings[t.oldId := Superseded(prior, now, t)]);
      var booking := Successor(prior, t);
      if !DuplicateKey(saved.bookings, booking)
      then Outcome(LinkForward(Insert(saved, booking), t.oldId, s.nextId), Ok(s.nextId))
      else
        var existing := FindRecovery(saved, prior, t, 0);
        if existing.Some?
        then Outcome(LinkForward(saved, t.oldId, existing.value), Ok(existing.value))
        else Outcome(s, Err(Conflict))
  }

  function LinkForward(s: Store, id: Id, to: Id): Store
    requires id in s.bookings
  {
    s.(bookings := s.bookings[id := s.bookings[id].(rescheduledToId := Some(to))])
  }

  function Reschedule(s: Store, now: int, actor: Actor, id: Id, input: RescheduleInput,
                      offered: seq<Slot>): Outcome<Id> {
    var check := RescheduleCheck(s, now, actor, id, input, offered);
    if check.Err? then Outcome(s, Err(check.error)) else RescheduleTx(s, now, check.value)
  }

  // ---- complete ----

  function CompleteUpdate(s: Store, id: Id): Outcome<()> {
    if id !in s.bookings then Outcome(s, Err(NotFound))
    else match s.bookings[id].status
      case Confirmed => Outcome(s.(bookings := s.bookings[id := s.bookings[id].(status := Completed)]), Ok(()))
      case Completed => Outcome(s, Ok(()))
      case Cancelled => Outcome(s, Err(Conflict))
  }

  function Complete(s: Store, now: int, actor: Actor, id: Id): Outcome<()> {
    if id !in s.bookings then Outcome(s, Err(NotFound))
    else if actor.role == Client || !s.bookings[id].OwnedBy(actor) then Outcome(s, Err(Forbidden))
    else match s.bookings[id].status
      case Cancelled => Outcome(s, Err(BadRequest))
      case Completed => Outcome(s, Ok(()))
      case Confirmed =>
        if s.bookings[id].endAt > now then Outcome(s, Err(BadRequest)) else CompleteUpdate(s, id)
  }

  // ---- getHistory ----

  const MAX_HOPS: nat := 200

  /** The documents the history query fetches: same request, offer, provider and client. */
  function SameChainKey(bookings: map<Id, Booking>, b: Booking): map<Id, Booking> {
    map id | id in bookings
             && bookings[id].requestId == b.requestId && bookings[id].offerId == b.offerId
             && bookings[id].providerUserId == b.providerUserId && bookings[id].clientId == b.clientId
         :: bookings[id]
  }

  /** Walk back from `root` for at most `hops` links. */
  function WalkBack(byId: map<Id, Booking>, root: Id, visited: set<Id>, hops: nat): (r: Result<Id>)
    requires root in byId
    ensures r.Ok? ==> r.value in byId
    decreases hops
  {
    if hops == 0 || byId[root].rescheduledFromId.None? then Ok(root)
    else
      var prev := byId[root].rescheduledFromId.value;
      if prev !in byId then Ok(root)
      else if prev in visited then Err(Conflict)
      else WalkBack(byId, prev, visited + {prev}, hops - 1)
  }

  /** Walk forward from `cur`, collecting at most `hops` items. */
  function WalkForward(byId: map<Id, Booking>, cur: Id, visited: set<Id>, hops: nat): (r: Result<seq<Id>>)
    requires cur in byId
    ensures r.Ok? && hops > 0 ==> r.value != []
    decreases hops
  {
    if hops == 0 then Ok([])
    else if byId[cur].rescheduledToId.None? then Ok([cur])
    else
      var next := byId[cur].rescheduledToId.value;
      if next !in byId then Ok([cur])
      else if next in visited then Err(Conflict)
      else
        var rest := WalkForward(byId, next, visited + {next}, hops - 1);
        if rest.Err? then rest else Ok([cur] + rest.value)
  }

  datatype History = History(rootId: Id, requestedId: Id, latestId: Id, currentIndex: int, items: seq<Id>)

  function IndexOf(items: seq<Id>, id: Id): (i: int)
    ensures -1 <= i < |items|
    ensures i >= 0 ==> items[i] == id && id !in items[..i]
    ensures i == -1 ==> id !in items
  {
    if items == [] then -1
    else if items[0] == id then 0
    else
      var i := IndexOf(items[1..], id);
      assert items == [items[0]] + items[1..];
      if i == -1 then -1
      else
        assert items[..i + 1] == [items[0]] + items[1..][..i];
        i + 1
  }

  function GetHistory(s: Store, actor: Actor, id: Id): Result<History> {
    if id !in s.bookings then Err(NotFound)
    else if !s.bookings[id].OwnedBy(actor) then Err(Forbidden)
    else
      var byId := SameChainKey(s.bookings, s.bookings[id]);
      HistoryOf(byId, id, MAX_HOPS)
  }

  function HistoryOf(byId: map<Id, Booking>, id: Id, hops: nat): Result<History>
    requires id in byId && hops > 0
  {
    var root := WalkBack(byId, id, {id}, hops);
    if root.Err? then Err(root.error)
    else
      var items := WalkForward(byId, root.value, {root.value}, hops);
      if items.Err? then Err(items.error)
      else Ok(History(root.value, id, items.value[|items.value| - 1], IndexOf(items.value, id), items.value))
  }

  /** Items follow stored forward links and none repeats. */
  ghost predicate ForwardWalk(byId: map<Id, Booking>, items: seq<Id>) {
    && (forall i | 0 <= i < |items| :: items[i] in byId)
    && (forall i | 0 <= i < |items| - 1 :: byId[items[i]].rescheduledToId == Some(items[i + 1]))
    && (forall i, j | 0 <= i < j < |items| :: items[i] != items[j])
  }

  /** On arbitrary link data the walk is a bounded, duplicate-free path or a reported cycle. */
  lemma {:induction false} WalkForwardWalk(byId: map<Id, Booking>, cur: Id, visited: set<Id>, hops: nat)
    requires cur in byId && cur in visited
    ensures var r := WalkForward(byId, cur, visited, hops);
      r.Ok? ==>
        && |r.value| <= hops
        && (hops > 0 ==> |r.value| > 0 && r.value[0] == cur)
        && ForwardWalk(byId, r.value)
        && (forall i | 1 <= i < |r.value| :: r.value[i] !in visited)
    decreases hops
  {
    if hops > 0 && byId[cur].rescheduledToId.Some? {
      var next := byId[cur].rescheduledToId.value;
      if next in byId && next !in visited {
        WalkForwardWalk(byId, next, visited + {next}, hops - 1);
      }
    }
  }
}
