/**
 * Requests, offers and contracts: the three collections and the calls that move them through their
 * lifecycle. Each database write is a function of its own so that it can also be interleaved.
 */
module Marketplace {
  import opened Common

  type Id = nat

  datatype RequestStatus = Draft | Published | Paused | Matched | Closed | Cancelled
  datatype OfferStatus = Sent | Accepted | Declined | Withdrawn
  datatype ContractStatus = Pending | Confirmed | InProgress | Completed | Cancelled

  datatype Request = Request(
    clientId: Option<string>, status: RequestStatus,
    matchedProvider: Option<string>, assignedContract: Option<Id>,
    archivedAt: Option<int>, purgeAt: Option<int>)

  datatype Offer = Offer(requestId: Id, providerId: string, clientId: string, status: OfferStatus)

  datatype Contract = Contract(
    requestId: Id, offerId: Id, clientId: string, providerId: string, status: ContractStatus, updatedAt: int)

  datatype Store = Store(
    requests: map<Id, Request>, offers: map<Id, Offer>, contracts: map<Id, Contract>, nextId: Id)

  datatype Outcome<+T> = Outcome(store: Store, result: Result<T>)

  const RETENTION_MS: int := 7 * 24 * HOUR_MS

  // ---- Queries ----

  predicate Owned(s: Store, clientId: string, rid: Id) {
    rid in s.requests && s.requests[rid].clientId == Some(clientId)
  }

  predicate Publishable(status: RequestStatus) {
    status == Draft || status == Paused || status == RequestStatus.Cancelled
  }

  predicate Settled(status: RequestStatus) { status == Matched || status == Closed }

  predicate HasOffers(offers: map<Id, Offer>, rid: Id) {
    exists o | o in offers :: offers[o].requestId == rid
  }

  /** The first contract of an offer at or after `from`. */
  function ContractOf(s: Store, oid: Id, from: Id): (c: Option<Id>)
    ensures c.Some? ==> c.value in s.contracts && s.contracts[c.value].offerId == oid
    ensures c.None? ==> forall k | k in s.contracts && from <= k < s.nextId :: s.contracts[k].offerId != oid
    decreases s.nextId - from
  {
    if from >= s.nextId then None
    else if from in s.contracts && s.contracts[from].offerId == oid then Some(from)
    else ContractOf(s, oid, from + 1)
  }

  // ---- Writes ----

  function SetStatus(s: Store, rid: Id, status: RequestStatus): Store
    requires rid in s.requests
  {
    s.(requests := s.requests[rid := s.requests[rid].(status := status)])
  }

  function SetOffer(s: Store, oid: Id, status: OfferStatus): Store {
    if oid in s.offers then s.(offers := s.offers[oid := s.offers[oid].(status := status)]) else s
  }

  function SetContract(s: Store, now: int, cid: Id, status: ContractStatus): Store
    requires cid in s.contracts
  {
    s.(contracts := s.contracts[cid := s.contracts[cid].(status := status, updatedAt := now)])
  }

  /** The filter of the compare-and-set that serves as a lock. */
  predicate Lockable(r: Request, clientId: string) {
    r.clientId == Some(clientId) && r.status == Published && r.matchedProvider.None?
  }

  function Lock(s: Store, rid: Id, providerId: string): Store
    requires rid in s.requests
  {
    s.(requests := s.requests[rid := s.requests[rid].(
                     status := Paused, matchedProvider := Some(providerId), assignedContract := None)])
  }

  function NewContract(o: Offer, oid: Id, clientId: string, now: int): Contract {
    Contract(o.requestId, oid, clientId, o.providerId, Pending, now)
  }

  /** An insert; the unique index on the offer id refuses a second contract of one offer. */
  function InsertContract(s: Store, c: Contract): Store {
    s.(contracts := s.contracts[s.nextId := c], nextId := s.nextId + 1)
  }

  function Assign(s: Store, rid: Id, cid: Id): Store {
    if rid in s.requests && s.requests[rid].assignedContract.None?
    then s.(requests := s.requests[rid := s.requests[rid].(assignedContract := Some(cid))])
    else s
  }

  predicate Loses(o: Offer, oid: Id, rid: Id, winner: Id) {
    o.requestId == rid && oid != winner && o.status == Sent
  }

  function DeclineOthers(s: Store, rid: Id, winner: Id): Store {
    s.(offers := map o | o in s.offers ::
      if Loses(s.offers[o], o, rid, winner) then s.offers[o].(status := Declined) else s.offers[o])
  }

  // ---- Requests ----

  function NewRequest(clientId: Option<string>, status: RequestStatus): Request {
    Request(clientId, status, None, None, None, None)
  }

  function InsertRequest(s: Store, r: Request): Outcome<Id> {
    Outcome(s.(requests := s.requests[s.nextId := r], nextId := s.nextId + 1), Ok(s.nextId))
  }

  datatype CityInput = NoCity | MalformedCity | UnknownCity | KnownCity
  datatype PointInput = NoPoint | HalfPoint | FullPoint

  /**
   * What the input and the catalogue say of a request to create: whether the service exists, what the city id
   * leads to, whether a city name is given and whether a city can be made from it, and the coordinates.
   */
  datatype RequestContext = RequestContext(serviceKnown: bool, city: CityInput, named: bool, nameUsable: bool,
                                           point: PointInput)

  /** The checks in the order of the code: a city id that leads nowhere falls back to the name. */
  function RequestCheck(ctx: RequestContext): (r: Result<()>)
    ensures r.Ok? <==>
      && ctx.serviceKnown && !ctx.point.HalfPoint?
      && (ctx.city.KnownCity? || (ctx.named && ctx.nameUsable && (ctx.city.NoCity? ==> ctx.point.FullPoint?)))
    ensures r.Err? ==> r.error == BadRequest
  {
    if !ctx.serviceKnown then Err(BadRequest)
    else if ctx.city.MalformedCity? && !ctx.named then Err(BadRequest)
    else if !ctx.city.NoCity? && !ctx.city.KnownCity? && ctx.named && !ctx.nameUsable then Err(BadRequest)
    else if ctx.city.UnknownCity? && !ctx.named then Err(BadRequest)
    else if ctx.point.HalfPoint? then Err(BadRequest)
    else if ctx.city.NoCity? && !ctx.named then Err(BadRequest)
    else if ctx.city.NoCity? && ctx.point.NoPoint? then Err(BadRequest)
    else if ctx.city.NoCity? && !ctx.nameUsable then Err(BadRequest)
    else Ok(())
  }

  /** createPublic publishes at once, possibly without an owner; createForClient saves a draft. */
  function CreatePublic(s: Store, clientId: Option<string>, ctx: RequestContext): Outcome<Id> {
    var check := RequestCheck(ctx);
    if check.Err? then Outcome(s, Err(check.error)) else InsertRequest(s, NewRequest(clientId, Published))
  }

  function CreateForClient(s: Store, clientId: string, ctx: RequestContext): Outcome<Id> {
    var check := RequestCheck(ctx);
    if check.Err? then Outcome(s, Err(check.error)) else InsertRequest(s, NewRequest(Some(clientId), Draft))
  }

  /** A copy is not checked again. */
  function Duplicate(s: Store, clientId: string, rid: Id): Outcome<Id> {
    if !Owned(s, clientId, rid) then Outcome(s, Err(NotFound)) else InsertRequest(s, NewRequest(Some(clientId), Draft))
  }

  function Publish(s: Store, clientId: string, rid: Id): Outcome<()> {
    if !Owned(s, clientId, rid) then Outcome(s, Err(NotFound))
    else
      var r := s.requests[rid];
      if r.archivedAt.Some? then Outcome(s, Err(Conflict))
      else if !Publishable(r.status) then Outcome(s, Err(Conflict))
      else Outcome(s.(requests := s.requests[rid := r.(status := Published, purgeAt := None)]), Ok(()))
  }

  function Unpublish(s: Store, clientId: string, rid: Id): Outcome<()> {
    if !Owned(s, clientId, rid) then Outcome(s, Err(NotFound))
    else
      var r := s.requests[rid];
      if r.archivedAt.Some? || r.status != Published || HasOffers(s.offers, rid) then Outcome(s, Err(Conflict))
      else Outcome(s.(requests := s.requests[rid := r.(status := Paused, purgeAt := None)]), Ok(()))
  }

  /** The lifecycle guards of an edit; the edited fields are not part of the lifecycle. */
  function UpdateGuard(s: Store, clientId: string, rid: Id): Result<()> {
    if !Owned(s, clientId, rid) then Err(NotFound)
    else if s.requests[rid].archivedAt.Some? || Settled(s.requests[rid].status) then Err(Conflict)
    else Ok(())
  }

  function Archive(s: Store, now: int, clientId: string, rid: Id): Outcome<()> {
    if !Owned(s, clientId, rid) then Outcome(s, Err(NotFound))
    else if s.requests[rid].archivedAt.Some? then Outcome(s, Ok(()))
    else Outcome(s.(requests := s.requests[rid := s.requests[rid].(archivedAt := Some(now))]), Ok(()))
  }

  datatype Removal = Removed | Retained

  /** `watched`: some favourite or chat thread refers to the request. */
  function Delete(s: Store, now: int, clientId: string, rid: Id, watched: bool): Outcome<Removal> {
    if !Owned(s, clientId, rid) then Outcome(s, Err(NotFound))
    else
      var r := s.requests[rid];
      if Settled(r.status) then Outcome(s, Err(Conflict))
      else if HasOffers(s.offers, rid) || watched then
        var kept := r.(status := RequestStatus.Cancelled, purgeAt := Some(now + RETENTION_MS));
        Outcome(s.(requests := s.requests[rid := kept]), Ok(Retained))
      else Outcome(s.(requests := s.requests - {rid}), Ok(Removed))
  }

  // ---- Offers ----

  /** What the call learns outside the three collections. */
  datatype OfferContext = OfferContext(overDailyLimit: bool, amountOk: bool, providerBlocked: bool)

  predicate AlreadyOffered(offers: map<Id, Offer>, rid: Id, providerId: string) {
    exists o | o in offers :: offers[o].requestId == rid && offers[o].providerId == providerId
  }

  function CreateOffer(s: Store, providerId: string, rid: Id, ctx: OfferContext): Outcome<Id> {
    if ctx.overDailyLimit then Outcome(s, Err(Forbidden))
    else if !ctx.amountOk then Outcome(s, Err(BadRequest))
    else if rid !in s.requests then Outcome(s, Err(NotFound))
    else
      var r := s.requests[rid];
      if r.status != Published || r.clientId.None? then Outcome(s, Err(BadRequest))
      else if r.clientId.value == providerId || ctx.providerBlocked then Outcome(s, Err(Forbidden))
      else if AlreadyOffered(s.offers, rid, providerId) then Outcome(s, Err(Conflict))
      else
        var offer := Offer(rid, providerId, r.clientId.value, Sent);
        Outcome(s.(offers := s.offers[s.nextId := offer], nextId := s.nextId + 1), Ok(s.nextId))
  }

  function DeleteOffer(s: Store, providerId: string, oid: Id): Outcome<()> {
    if oid !in s.offers then Outcome(s, Err(NotFound))
    else if s.offers[oid].providerId != providerId then Outcome(s, Err(Forbidden))
    else if s.offers[oid].status != Sent then Outcome(s, Err(BadRequest))
    else Outcome(s.(offers := s.offers - {oid}), Ok(()))
  }

  /** The reads before the lock: Ok(false) when the offer is accepted already. */
  function AcceptCheck(s: Store, clientId: string, oid: Id): Result<bool> {
    if oid !in s.offers then Err(NotFound)
    else if s.offers[oid].requestId !in s.requests then Err(NotFound)
    else if s.requests[s.offers[oid].requestId].clientId != Some(clientId) then Err(Forbidden)
    else match s.offers[oid].status
      case Accepted => Ok(false)
      case Declined => Err(BadRequest)
      case Withdrawn => Err(BadRequest)
      case Sent => Ok(true)
  }

  /** The writes after the lock, run to the end: accept, find or create the contract, assign it, decline the rest. */
  function FinishAccept(s: Store, now: int, clientId: string, oid: Id, o: Offer): Store {
    var s1 := SetOffer(s, oid, Accepted);
    var found := ContractOf(s1, oid, 0);
    var s2 := if found.Some? then s1 else InsertContract(s1, NewContract(o, oid, clientId, now));
    var cid := if found.Some? then found.value else s1.nextId;
    DeclineOthers(Assign(s2, o.requestId, cid), o.requestId, oid)
  }

  function Accept(s: Store, now: int, clientId: string, oid: Id): Outcome<()> {
    var check := AcceptCheck(s, clientId, oid);
    if check.Err? then Outcome(s, Err(check.error))
    else if !check.value then Outcome(s, Ok(()))
    else
      var o := s.offers[oid];
      if !Lockable(s.requests[o.requestId], clientId) then Outcome(s, Err(BadRequest))
      else Outcome(FinishAccept(Lock(s, o.requestId, o.providerId), now, clientId, oid, o), Ok(()))
  }

  function Decline(s: Store, clientId: string, oid: Id): Outcome<()> {
    if oid !in s.offers then Outcome(s, Err(NotFound))
    else if s.offers[oid].requestId !in s.requests then Outcome(s, Err(NotFound))
    else
      var r := s.requests[s.offers[oid].requestId];
      if r.clientId != Some(clientId) then Outcome(s, Err(Forbidden))
      else if r.status == Matched || r.status == Paused then Outcome(s, Err(BadRequest))
      else match s.offers[oid].status
        case Declined => Outcome(s, Ok(()))
        case Accepted => Outcome(s, Err(BadRequest))
        case _ => Outcome(SetOffer(s, oid, Declined), Ok(()))
  }

  // ---- Contracts ----

  predicate Party(c: Contract, userId: string) { c.clientId == userId || c.providerId == userId }

  /** `booking` is what the booking service answers, None when a booking of the contract exists already. */
  function Confirm(s: Store, now: int, clientId: string, cid: Id, booking: Option<Result<()>>): Outcome<()> {
    if cid !in s.contracts then Outcome(s, Err(NotFound))
    else
      var c := s.contracts[cid];
      if c.clientId != clientId then Outcome(s, Err(Forbidden))
      else if c.status != Pending then Outcome(s, Err(BadRequest))
      else if booking.None? then Outcome(s, Err(Conflict))
      else if booking.value.Err? then Outcome(s, Err(booking.value.error))
      else
        var s1 := SetContract(s, now, cid, Confirmed);
        if c.requestId in s1.requests
           && (s1.requests[c.requestId].assignedContract.None?
              || s1.requests[c.requestId].assignedContract == Some(cid))
        then Outcome(s1.(requests := s1.requests[c.requestId := s1.requests[c.requestId].(
                           status := Matched, assignedContract := Some(cid))]), Ok(()))
        else Outcome(s1, Ok(()))
  }

  function CancelContract(s: Store, now: int, userId: string, cid: Id): Outcome<()> {
    if cid !in s.contracts then Outcome(s, Err(NotFound))
    else
      var c := s.contracts[cid];
      if !Party(c, userId) then Outcome(s, Err(Forbidden))
      else if c.status == Completed then Outcome(s, Err(BadRequest))
      else if c.status == ContractStatus.Cancelled then Outcome(s, Ok(()))
      else
        var s1 := SetContract(s, now, cid, ContractStatus.Cancelled);
        if c.requestId in s1.requests && s1.requests[c.requestId].assignedContract == Some(cid)
        then Outcome(s1.(requests := s1.requests[c.requestId := s1.requests[c.requestId].(
                           status := Published, matchedProvider := None, assignedContract := None)]), Ok(()))
        else Outcome(s1, Ok(()))
  }

  function CompleteContract(s: Store, now: int, userId: string, cid: Id): Outcome<()> {
    if cid !in s.contracts then Outcome(s, Err(NotFound))
    else
      var c := s.contracts[cid];
      if !Party(c, userId) then Outcome(s, Err(Forbidden))
      else match c.status
        case Cancelled => Outcome(s, Err(BadRequest))
        case Completed => Outcome(s, Ok(()))
        case Pending => Outcome(s, Err(BadRequest))
        case _ =>
          var s1 := SetContract(s, now, cid, Completed);
          if c.requestId in s1.requests && s1.requests[c.requestId].assignedContract == Some(cid)
          then Outcome(SetStatus(s1, c.requestId, Closed), Ok(()))
          else Outcome(s1, Ok(()))
  }
}
