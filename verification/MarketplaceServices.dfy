/**
 * The request, offer and contract services over one shared database. Every call is proved to be the
 * call of module Marketplace and to leave a reachable database reachable, so everything MarketplaceRuns
 * proves of runs holds of it; what a successful call gives its caller is stated with it.
 */
module MarketplaceServices {
  import opened Common
  import M = Marketplace
  import opened Marketplace
  import MR = MarketplaceRuns

  class Database {
    var requests: map<Id, Request>
    var offers: map<Id, Offer>
    var contracts: map<Id, Contract>
    var nextId: Id

    constructor ()
      ensures Contents() == MR.EMPTY && MR.Reachable(Contents())
    {
      assert MR.Run(MR.EMPTY, []) == MR.EMPTY;
      requests, offers, contracts, nextId := map[], map[], map[], 0;
    }

    ghost function Contents(): Store
      reads this
    {
      Store(requests, offers, contracts, nextId)
    }
  }

  class RequestsService {
    const db: Database

    constructor (db: Database)
      ensures this.db == db
    {
      this.db := db;
    }

    /** The checks shared by the two ways of creating a request. */
    static method Check(ctx: RequestContext) returns (r: Result<()>)
      ensures r == RequestCheck(ctx)
    {
      if !ctx.serviceKnown { return Err(BadRequest); }
      if ctx.city.MalformedCity? && !ctx.named { return Err(BadRequest); }
      var found := ctx.city.KnownCity?;
      if !ctx.city.NoCity? && !found && ctx.named {
        if !ctx.nameUsable { return Err(BadRequest); }
        found := true;
      }
      if !ctx.city.NoCity? && !found { return Err(BadRequest); }
      if ctx.point.HalfPoint? { return Err(BadRequest); }
      if ctx.city.NoCity? && !ctx.named { return Err(BadRequest); }
      if ctx.city.NoCity? && ctx.point.NoPoint? { return Err(BadRequest); }
      if ctx.city.NoCity? && ctx.named && !ctx.nameUsable { return Err(BadRequest); }
      return Ok(());
    }

    /** The write shared by the ways of creating a request. */
    method Insert(r: Request) returns (id: Id)
      modifies db`requests, db`nextId
      ensures Outcome(db.Contents(), Ok(id)) == M.InsertRequest(old(db.Contents()), r)
    {
      id := db.nextId;
      db.requests := db.requests[id := r];
      db.nextId := id + 1;
    }

    method CreatePublic(clientId: Option<string>, ctx: RequestContext) returns (r: Result<Id>)
      modifies db`requests, db`nextId
      ensures Outcome(db.Contents(), r) == M.CreatePublic(old(db.Contents()), clientId, ctx)
      ensures MR.Reachable(old(db.Contents())) ==> MR.Reachable(db.Contents())
    {
      MR.ReachableNext(db.Contents(), MR.CallCreatePublic(clientId, ctx));
      var _ :- Check(ctx);
      var id := Insert(NewRequest(clientId, Published));
      return Ok(id);
    }

    method CreateForClient(clientId: string, ctx: RequestContext) returns (r: Result<Id>)
      modifies db`requests, db`nextId
      ensures Outcome(db.Contents(), r) == M.CreateForClient(old(db.Contents()), clientId, ctx)
      ensures MR.Reachable(old(db.Contents())) ==> MR.Reachable(db.Contents())
    {
      MR.ReachableNext(db.Contents(), MR.CallCreateForClient(clientId, ctx));
      var _ :- Check(ctx);
      var id := Insert(NewRequest(Some(clientId), Draft));
      return Ok(id);
    }

    method Duplicate(clientId: string, rid: Id) returns (r: Result<Id>)
      modifies db`requests, db`nextId
      ensures Outcome(db.Contents(), r) == M.Duplicate(old(db.Contents()), clientId, rid)
      ensures MR.Reachable(old(db.Contents())) ==> MR.Reachable(db.Contents())
    {
      MR.ReachableNext(db.Contents(), MR.CallDuplicate(clientId, rid));
      if rid !in db.requests || db.requests[rid].clientId != Some(clientId) { return Err(NotFound); }
      var id := Insert(NewRequest(Some(clientId), Draft));
      return Ok(id);
    }

    method PublishForClient(clientId: string, rid: Id) returns (r: Result<()>)
      modifies db`requests
      ensures Outcome(db.Contents(), r) == M.Publish(old(db.Contents()), clientId, rid)
      ensures MR.Reachable(old(db.Contents())) ==> MR.Reachable(db.Contents())
    {
      MR.ReachableNext(db.Contents(), MR.CallPublish(clientId, rid));
      if rid !in db.requests || db.requests[rid].clientId != Some(clientId) { return Err(NotFound); }
      var existing := db.requests[rid];
      if existing.archivedAt.Some? { return Err(Conflict); }
      if !Publishable(existing.status) { return Err(Conflict); }
      db.requests := db.requests[rid := existing.(status := Published, purgeAt := None)];
      return Ok(());
    }

    method Unpublish(clientId: string, rid: Id) returns (r: Result<()>)
      modifies db`requests
      ensures Outcome(db.Contents(), r) == M.Unpublish(old(db.Contents()), clientId, rid)
      ensures MR.Reachable(old(db.Contents())) ==> MR.Reachable(db.Contents())
    {
      MR.ReachableNext(db.Contents(), MR.CallUnpublish(clientId, rid));
      if rid !in db.requests || db.requests[rid].clientId != Some(clientId) { return Err(NotFound); }
      var existing := db.requests[rid];
      if existing.archivedAt.Some? { return Err(Conflict); }
      if existing.status != Published { return Err(Conflict); }
      if HasOffers(db.offers, rid) { return Err(Conflict); }
      db.requests := db.requests[rid := existing.(status := Paused, purgeAt := None)];
      return Ok(());
    }

    method Archive(now: int, clientId: string, rid: Id) returns (r: Result<()>)
      modifies db`requests
      ensures Outcome(db.Contents(), r) == M.Archive(old(db.Contents()), now, clientId, rid)
      ensures MR.Reachable(old(db.Contents())) ==> MR.Reachable(db.Contents())
    {
      MR.ReachableNext(db.Contents(), MR.CallArchive(now, clientId, rid));
      if rid !in db.requests || db.requests[rid].clientId != Some(clientId) { return Err(NotFound); }
      if db.requests[rid].archivedAt.Some? { return Ok(()); }
      db.requests := db.requests[rid := db.requests[rid].(archivedAt := Some(now))];
      return Ok(());
    }

    method Delete(now: int, clientId: string, rid: Id, watched: bool) returns (r: Result<Removal>)
      modifies db`requests
      ensures Outcome(db.Contents(), r) == M.Delete(old(db.Contents()), now, clientId, rid, watched)
      ensures MR.Reachable(old(db.Contents())) ==> MR.Reachable(db.Contents())
    {
      MR.ReachableNext(db.Contents(), MR.CallDelete(now, clientId, rid, watched));
      if rid !in db.requests || db.requests[rid].clientId != Some(clientId) { return Err(NotFound); }
      var existing := db.requests[rid];
      if existing.status == Matched || existing.status == Closed { return Err(Conflict); }
      if HasOffers(db.offers, rid) || watched {
        var purgeAt := now + RETENTION_MS;
        db.requests := db.requests[rid := existing.(status := RequestStatus.Cancelled, purgeAt := Some(purgeAt))];
        return Ok(Retained);
      }
      db.requests := db.requests - {rid};
      return Ok(Removed);
    }
  }

  class OffersService {
    const db: Database

    constructor (db: Database)
      ensures this.db == db
    {
      this.db := db;
    }

    method CreateForProvider(providerId: string, rid: Id, ctx: OfferContext) returns (r: Result<Id>)
      modifies db`offers, db`nextId
      ensures Outcome(db.Contents(), r) == M.CreateOffer(old(db.Contents()), providerId, rid, ctx)
      ensures MR.Reachable(old(db.Contents())) ==> MR.Reachable(db.Contents())
    {
      MR.ReachableNext(db.Contents(), MR.CallCreateOffer(providerId, rid, ctx));
      if ctx.overDailyLimit { return Err(Forbidden); }
      if !ctx.amountOk { return Err(BadRequest); }
      if rid !in db.requests { return Err(NotFound); }
      var req := db.requests[rid];
      if req.status != Published { return Err(BadRequest); }
      if req.clientId.None? { return Err(BadRequest); }
      if req.clientId.value == providerId { return Err(Forbidden); }
      if ctx.providerBlocked { return Err(Forbidden); }
      if AlreadyOffered(db.offers, rid, providerId) { return Err(Conflict); }
      var id := db.nextId;
      db.offers := db.offers[id := Offer(rid, providerId, req.clientId.value, Sent)];
      db.nextId := id + 1;
      return Ok(id);
    }

    method DeleteForProvider(providerId: string, oid: Id) returns (r: Result<()>)
      modifies db`offers
      ensures Outcome(db.Contents(), r) == M.DeleteOffer(old(db.Contents()), providerId, oid)
      ensures MR.Reachable(old(db.Contents())) ==> MR.Reachable(db.Contents())
    {
      MR.ReachableNext(db.Contents(), MR.CallDeleteOffer(providerId, oid));
      if oid !in db.offers { return Err(NotFound); }
      if db.offers[oid].providerId != providerId { return Err(Forbidden); }
      if db.offers[oid].status != Sent { return Err(BadRequest); }
      db.offers := db.offers - {oid};
      return Ok(());
    }

    method AcceptForClient(now: int, clientId: string, oid: Id) returns (r: Result<()>)
      modifies db
      ensures Outcome(db.Contents(), r) == M.Accept(old(db.Contents()), now, clientId, oid)
      ensures MR.Reachable(old(db.Contents())) ==> MR.Reachable(db.Contents())
      ensures MR.Reachable(old(db.Contents())) && r.Ok? ==> MR.Contracted(db.Contents(), oid)
    {
      MR.ReachableNext(db.Contents(), MR.CallAccept(now, clientId, oid));
      MR.AcceptGives(db.Contents(), now, clientId, oid);
      if oid !in db.offers { return Err(NotFound); }
      var offer := db.offers[oid];
      var rid := offer.requestId;
      if rid !in db.requests { return Err(NotFound); }
      if db.requests[rid].clientId != Some(clientId) { return Err(Forbidden); }
      if offer.status == Accepted { return Ok(()); }
      if offer.status == Declined || offer.status == Withdrawn { return Err(BadRequest); }
      if !Lockable(db.requests[rid], clientId) { return Err(BadRequest); }
      db.requests := db.requests[rid := db.requests[rid].(
        status := Paused, matchedProvider := Some(offer.providerId), assignedContract := None)];
      FinishAcceptance(now, clientId, oid, offer);
      return Ok(());
    }

    /** The writes that follow a taken lock. */
    method FinishAcceptance(now: int, clientId: string, oid: Id, offer: Offer)
      requires oid in db.offers
      modifies db
      ensures db.Contents() == M.FinishAccept(old(db.Contents()), now, clientId, oid, offer)
    {
      db.offers := db.offers[oid := db.offers[oid].(status := Accepted)];
      var contract := ContractOf(Store(db.requests, db.offers, db.contracts, db.nextId), oid, 0);
      if contract.None? {
        db.contracts := db.contracts[db.nextId := NewContract(offer, oid, clientId, now)];
        contract := Some(db.nextId);
        db.nextId := db.nextId + 1;
      }
      var rid := offer.requestId;
      if rid in db.requests && db.requests[rid].assignedContract.None? {
        db.requests := db.requests[rid := db.requests[rid].(assignedContract := contract)];
      }
      var offers := db.offers;
      db.offers := map o | o in offers ::
        if Loses(offers[o], o, rid, oid) then offers[o].(status := Declined) else offers[o];
    }

    method DeclineForClient(clientId: string, oid: Id) returns (r: Result<()>)
      modifies db`offers
      ensures Outcome(db.Contents(), r) == M.Decline(old(db.Contents()), clientId, oid)
      ensures MR.Reachable(old(db.Contents())) ==> MR.Reachable(db.Contents())
    {
      MR.ReachableNext(db.Contents(), MR.CallDecline(clientId, oid));
      if oid !in db.offers { return Err(NotFound); }
      var offer := db.offers[oid];
      if offer.requestId !in db.requests { return Err(NotFound); }
      var req := db.requests[offer.requestId];
      if req.clientId != Some(clientId) { return Err(Forbidden); }
      if req.status == Matched || req.status == Paused { return Err(BadRequest); }
      if offer.status == Declined { return Ok(()); }
      if offer.status == Accepted { return Err(BadRequest); }
      db.offers := db.offers[oid := offer.(status := Declined)];
      return Ok(());
    }
  }

  class ContractsService {
    const db: Database

    constructor (db: Database)
      ensures this.db == db
    {
      this.db := db;
    }

    method ConfirmByClient(now: int, cid: Id, clientId: string, booking: Option<Result<()>>) returns (r: Result<()>)
      modifies db`contracts, db`requests
      ensures Outcome(db.Contents(), r) == M.Confirm(old(db.Contents()), now, clientId, cid, booking)
      ensures MR.Reachable(old(db.Contents())) ==> MR.Reachable(db.Contents())
      ensures MR.Reachable(old(db.Contents())) && r.Ok? ==> MR.CarriedBy(db.Contents(), cid, Matched)
    {
      MR.ReachableNext(db.Contents(), MR.CallConfirm(now, clientId, cid, booking));
      MR.ConfirmGives(db.Contents(), now, clientId, cid, booking);
      if cid !in db.contracts { return Err(NotFound); }
      var contract := db.contracts[cid];
      if contract.clientId != clientId { return Err(Forbidden); }
      if contract.status != Pending { return Err(BadRequest); }
      if booking.None? { return Err(Conflict); }
      if booking.value.Err? { return booking.value; }
      db.contracts := db.contracts[cid := contract.(status := Confirmed, updatedAt := now)];
      var rid := contract.requestId;
      if rid in db.requests {
        var req := db.requests[rid];
        if req.assignedContract.None? || req.assignedContract == Some(cid) {
          db.requests := db.requests[rid := req.(status := Matched, assignedContract := Some(cid))];
        }
      }
      return Ok(());
    }

    method Cancel(now: int, cid: Id, userId: string) returns (r: Result<()>)
      modifies db`contracts, db`requests
      ensures Outcome(db.Contents(), r) == M.CancelContract(old(db.Contents()), now, userId, cid)
      ensures MR.Reachable(old(db.Contents())) ==> MR.Reachable(db.Contents())
      ensures MR.Reachable(old(db.Contents())) && r.Ok? ==> MR.LetGo(db.Contents(), cid)
      ensures MR.Reachable(old(db.Contents())) && r.Ok? && old(db.contracts)[cid].status != ContractStatus.Cancelled ==>
        MR.Reopened(db.Contents(), cid)
    {
      MR.ReachableNext(db.Contents(), MR.CallCancelContract(now, userId, cid));
      MR.CancelGives(db.Contents(), now, userId, cid);
      if cid !in db.contracts { return Err(NotFound); }
      var contract := db.contracts[cid];
      if contract.clientId != userId && contract.providerId != userId { return Err(Forbidden); }
      if contract.status == Completed { return Err(BadRequest); }
      if contract.status == ContractStatus.Cancelled { return Ok(()); }
      db.contracts := db.contracts[cid := contract.(status := ContractStatus.Cancelled, updatedAt := now)];
      var rid := contract.requestId;
      if rid in db.requests && db.requests[rid].assignedContract == Some(cid) {
        db.requests := db.requests[rid := db.requests[rid].(
          status := Published, matchedProvider := None, assignedContract := None)];
      }
      return Ok(());
    }

    method Complete(now: int, cid: Id, userId: string) returns (r: Result<()>)
      modifies db`contracts, db`requests
      ensures Outcome(db.Contents(), r) == M.CompleteContract(old(db.Contents()), now, userId, cid)
      ensures MR.Reachable(old(db.Contents())) ==> MR.Reachable(db.Contents())
      ensures MR.Reachable(old(db.Contents())) && r.Ok? ==> MR.CarriedBy(db.Contents(), cid, Closed)
    {
      MR.ReachableNext(db.Contents(), MR.CallCompleteContract(now, userId, cid));
      MR.CompleteGives(db.Contents(), now, userId, cid);
      if cid !in db.contracts { return Err(NotFound); }
      var contract := db.contracts[cid];
      if contract.clientId != userId && contract.providerId != userId { return Err(Forbidden); }
      if contract.status == ContractStatus.Cancelled { return Err(BadRequest); }
      if contract.status == Completed { return Ok(()); }
      if contract.status == Pending { return Err(BadRequest); }
      db.contracts := db.contracts[cid := contract.(status := Completed, updatedAt := now)];
      var rid := contract.requestId;
      if rid in db.requests && db.requests[rid].assignedContract == Some(cid) {
        db.requests := db.requests[rid := db.requests[rid].(status := Closed)];
      }
      return Ok(());
    }
  }
}
