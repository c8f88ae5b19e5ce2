/**
 * What each request, offer and contract call answers and writes, in terms of the stored fields: every refusal,
 * the exact condition of success and the exact change; and what one call means for the next.
 */
module MarketplaceRules {
  import opened Common
  import opened Marketplace
  import opened MarketplaceRuns

  // ---- Changes ----

  /** Only this request changes. */
  ghost predicate RequestBecomes(s: Store, t: Store, rid: Id, r: Request) { t == s.(requests := s.requests[rid := r]) }

  ghost predicate RequestAdded(s: Store, t: Store, r: Request) {
    t == s.(requests := s.requests[s.nextId := r], nextId := s.nextId + 1)
  }

  predicate ClientOf(s: Store, user: string, rid: Id) { rid in s.requests && s.requests[rid].clientId == Some(user) }

  // ---- Requests ----

  /** What is created, and by which call. */
  lemma CreateExact(s: Store, owner: Option<string>, user: string, ctx: RequestContext)
    ensures var r := CreatePublic(s, owner, ctx);
      if RequestCheck(ctx).Err? then r == Outcome(s, Err(BadRequest))
      else r.result == Ok(s.nextId) && RequestAdded(s, r.store, Request(owner, Published, None, None, None, None))
    ensures var r := CreateForClient(s, user, ctx);
      if RequestCheck(ctx).Err? then r == Outcome(s, Err(BadRequest))
      else r.result == Ok(s.nextId) && RequestAdded(s, r.store, Request(Some(user), Draft, None, None, None, None))
  {
  }

  /** A copy is a draft of its owner, whatever became of the original. */
  lemma DuplicateExact(s: Store, user: string, rid: Id)
    ensures var r := Duplicate(s, user, rid);
      if !ClientOf(s, user, rid) then r == Outcome(s, Err(NotFound))
      else r.result == Ok(s.nextId) && RequestAdded(s, r.store, Request(Some(user), Draft, None, None, None, None))
  {
  }

  /** A draft, a paused and a cancelled request can be published, unless archived. */
  lemma PublishExact(s: Store, user: string, rid: Id)
    ensures var r := Publish(s, user, rid);
      if !ClientOf(s, user, rid) then r == Outcome(s, Err(NotFound))
      else if s.requests[rid].archivedAt.Some?
              || s.requests[rid].status in {RequestStatus.Published, Matched, Closed}
      then r == Outcome(s, Err(Conflict))
      else
        r.result == Ok(())
        && RequestBecomes(s, r.store, rid, s.requests[rid].(status := Published, purgeAt := None))
  {
  }

  /** A published request without a single offer, in whatever state, can be paused, unless archived. */
  lemma UnpublishExact(s: Store, user: string, rid: Id)
    ensures var r := Unpublish(s, user, rid);
      if !ClientOf(s, user, rid) then r == Outcome(s, Err(NotFound))
      else if s.requests[rid].archivedAt.None? && s.requests[rid].status == Published
              && forall o | o in s.offers :: s.offers[o].requestId != rid
      then
        r.result == Ok(())
        && RequestBecomes(s, r.store, rid, s.requests[rid].(status := Paused, purgeAt := None))
      else r == Outcome(s, Err(Conflict))
  {
  }

  /** The first archive counts. */
  lemma ArchiveExact(s: Store, now: int, user: string, rid: Id)
    ensures var r := Archive(s, now, user, rid);
      if !ClientOf(s, user, rid) then r == Outcome(s, Err(NotFound))
      else match s.requests[rid].archivedAt
        case Some(_) => r == Outcome(s, Ok(()))
        case None =>
          r.result == Ok(()) && RequestBecomes(s, r.store, rid, s.requests[rid].(archivedAt := Some(now)))
  {
  }

  /** An edit is refused for archived, matched and closed requests. */
  lemma EditExact(s: Store, user: string, rid: Id)
    ensures UpdateGuard(s, user, rid)
         == if !ClientOf(s, user, rid) then Err(NotFound)
            else if s.requests[rid].archivedAt.Some? || s.requests[rid].status in {Matched, Closed} then Err(Conflict)
            else Ok(())
  {
  }

  /** A request nobody has offered on or watches is gone at once, any other is cancelled and kept for a week. */
  lemma DeleteExact(s: Store, now: int, user: string, rid: Id, watched: bool)
    ensures var r := Delete(s, now, user, rid, watched);
      if !ClientOf(s, user, rid) then r == Outcome(s, Err(NotFound))
      else if s.requests[rid].status in {Matched, Closed} then r == Outcome(s, Err(Conflict))
      else if !watched && forall o | o in s.offers :: s.offers[o].requestId != rid then
        r.result == Ok(Removed) && r.store == s.(requests := map k | k in s.requests && k != rid :: s.requests[k])
      else
        r.result == Ok(Retained)
        && RequestBecomes(s, r.store, rid, s.requests[rid].(
             status := RequestStatus.Cancelled, purgeAt := Some(now + 604_800_000)))
  {
    var r := Delete(s, now, user, rid, watched);
    if r.result == Ok(Removed) {
      assert r.store.requests == map k | k in s.requests && k != rid :: s.requests[k];
    }
  }

  /** Publishing takes back an unpublish, and a cancellation that was retained. */
  lemma PublishTakesBack(s: Store, now: int, user: string, rid: Id, watched: bool)
    requires rid in s.requests && s.requests[rid].status == Published && s.requests[rid].purgeAt.None?
    ensures Unpublish(s, user, rid).result.Ok? ==>
      Publish(Unpublish(s, user, rid).store, user, rid) == Outcome(s, Ok(()))
    ensures Delete(s, now, user, rid, watched).result == Ok(Retained) && s.requests[rid].archivedAt.None? ==>
      Publish(Delete(s, now, user, rid, watched).store, user, rid) == Outcome(s, Ok(()))
  {
    assert s.requests[rid := s.requests[rid]] == s.requests;
  }

  // ---- Offers ----

  /** A provider offers once on a published request of somebody else. */
  predicate MayOffer(s: Store, provider: string, rid: Id) {
    && rid in s.requests && s.requests[rid].status == Published
    && s.requests[rid].clientId.Some? && s.requests[rid].clientId.value != provider
    && forall o | o in s.offers && s.offers[o].requestId == rid :: s.offers[o].providerId != provider
  }

  /** The refusals of an offer, first come first served. */
  function OfferRefusal(s: Store, provider: string, rid: Id, ctx: OfferContext): Option<Error> {
    if ctx.overDailyLimit then Some(Forbidden)
    else if !ctx.amountOk then Some(BadRequest)
    else if rid !in s.requests then Some(NotFound)
    else if s.requests[rid].status != Published || s.requests[rid].clientId.None? then Some(BadRequest)
    else if s.requests[rid].clientId == Some(provider) || ctx.providerBlocked then Some(Forbidden)
    else if MayOffer(s, provider, rid) then None
    else Some(Conflict)
  }

  lemma OfferExact(s: Store, provider: string, rid: Id, ctx: OfferContext)
    ensures var r := CreateOffer(s, provider, rid, ctx);
      match OfferRefusal(s, provider, rid, ctx)
      case Some(error) => r == Outcome(s, Err(error))
      case None =>
        && r.result == Ok(s.nextId)
        && r.store == s.(nextId := s.nextId + 1,
                         offers := s.offers[s.nextId := Offer(rid, provider, s.requests[rid].clientId.value, Sent)])
    ensures CreateOffer(s, provider, rid, ctx).result.Ok? <==>
      MayOffer(s, provider, rid) && !ctx.overDailyLimit && ctx.amountOk && !ctx.providerBlocked
  {
  }

  /** Only an offer that is still open can be taken back, and only by its provider. */
  lemma DeleteOfferExact(s: Store, provider: string, oid: Id)
    ensures var r := DeleteOffer(s, provider, oid);
      if oid !in s.offers then r == Outcome(s, Err(NotFound))
      else if s.offers[oid].providerId != provider then r == Outcome(s, Err(Forbidden))
      else if s.offers[oid].status != Sent then r == Outcome(s, Err(BadRequest))
      else r.result == Ok(()) && r.store == s.(offers := map k | k in s.offers && k != oid :: s.offers[k])
  {
    assert s.offers - {oid} == map k | k in s.offers && k != oid :: s.offers[k];
  }

  /** Taking an offer back leaves the store as it was before the offer, but for the id used up. */
  lemma DeleteTakesOfferBack(s: Store, provider: string, rid: Id, ctx: OfferContext)
    requires IdsFresh(s) && CreateOffer(s, provider, rid, ctx).result.Ok?
    ensures var offered := CreateOffer(s, provider, rid, ctx);
      DeleteOffer(offered.store, provider, offered.result.value) == Outcome(s.(nextId := s.nextId + 1), Ok(()))
  {
    var offered := CreateOffer(s, provider, rid, ctx);
    assert offered.store.offers - {s.nextId} == s.offers;
  }

  /** The offer is open and on a published request nobody has been matched with. */
  predicate MayWin(s: Store, oid: Id)
    requires oid in s.offers && s.offers[oid].requestId in s.requests
  {
    && s.offers[oid].status == Sent
    && s.requests[s.offers[oid].requestId].status == Published
    && s.requests[s.offers[oid].requestId].matchedProvider.None?
  }

  /** The request is reserved for the provider, a pending contract made and assigned, the other open offers declined. */
  ghost predicate AcceptedNow(s: Store, t: Store, oid: Id, clientId: string, now: int)
    requires oid in s.offers && s.offers[oid].requestId in s.requests
  {
    var rid, provider := s.offers[oid].requestId, s.offers[oid].providerId;
    && t.nextId == s.nextId + 1
    && t.requests == s.requests[rid := s.requests[rid].(
                       status := Paused, matchedProvider := Some(provider), assignedContract := Some(s.nextId))]
    && t.contracts == s.contracts[s.nextId := Contract(rid, oid, clientId, provider, Pending, now)]
    && t.offers.Keys == s.offers.Keys
    && forall o | o in s.offers :: t.offers[o] ==
         s.offers[o].(status := if o == oid then Accepted
                                else if s.offers[o].requestId == rid && s.offers[o].status == Sent then Declined
                                else s.offers[o].status)
  }

  /**
   * Accepting on a reachable store: the caller must be the client of the offer's request; an accepted offer is
   * answered as before; an open one is accepted exactly on a published, unmatched request.
   */
  lemma AcceptExact(s: Store, now: int, user: string, oid: Id)
    requires Inv(s)
    ensures var r := Accept(s, now, user, oid);
      if oid !in s.offers || s.offers[oid].requestId !in s.requests then r == Outcome(s, Err(NotFound))
      else if s.requests[s.offers[oid].requestId].clientId != Some(user) then r == Outcome(s, Err(Forbidden))
      else if s.offers[oid].status == Accepted then r == Outcome(s, Ok(()))
      else if MayWin(s, oid) then r.result == Ok(()) && AcceptedNow(s, r.store, oid, user, now)
      else r == Outcome(s, Err(BadRequest))
  {
    var check := AcceptCheck(s, user, oid);
    if check == Ok(true) {
      if MayWin(s, oid) {
        AcceptCases(s, now, user, oid);
        WonFields(s, now, user, oid);
      } else {
        NotLockable(s, now, user, oid);
      }
    }
  }

  lemma WonFields(s: Store, now: int, user: string, oid: Id)
    requires oid in s.offers && s.offers[oid].requestId in s.requests && s.offers[oid].status == Sent
    ensures AcceptedNow(s, DeclineOthers(Won(s, now, user, oid), s.offers[oid].requestId, oid), oid, user, now)
  {
  }

  lemma NotLockable(s: Store, now: int, user: string, oid: Id)
    requires AcceptCheck(s, user, oid) == Ok(true) && !MayWin(s, oid)
    ensures Accept(s, now, user, oid) == Outcome(s, Err(BadRequest))
  {
  }

  /** Declining needs a request that is neither paused nor matched; it can be repeated but not for an accepted offer. */
  lemma DeclineExact(s: Store, user: string, oid: Id)
    ensures var r := Decline(s, user, oid);
      if oid !in s.offers || s.offers[oid].requestId !in s.requests then r == Outcome(s, Err(NotFound))
      else if s.requests[s.offers[oid].requestId].clientId != Some(user) then r == Outcome(s, Err(Forbidden))
      else if s.requests[s.offers[oid].requestId].status in {Matched, Paused} || s.offers[oid].status == Accepted
      then r == Outcome(s, Err(BadRequest))
      else r == Outcome(s.(offers := s.offers[oid := s.offers[oid].(status := Declined)]), Ok(()))
  {
    if oid in s.offers && s.offers[oid].status == Declined {
      assert s.offers[oid := s.offers[oid].(status := Declined)] == s.offers;
    }
  }

  // ---- Contracts ----

  /** The contract takes the status, stamped now, and its request becomes `r`; nothing else is touched. */
  ghost predicate BothBecome(s: Store, t: Store, cid: Id, status: ContractStatus, now: int, r: Request)
    requires cid in s.contracts
  {
    t == s.(contracts := s.contracts[cid := s.contracts[cid].(status := status, updatedAt := now)],
            requests := s.requests[s.contracts[cid].requestId := r])
  }

  /** Only a pending contract is confirmed, by its client, and only if the booking goes through. */
  lemma ConfirmExact(s: Store, now: int, user: string, cid: Id, booking: Option<Result<()>>)
    requires Inv(s)
    ensures var r := Confirm(s, now, user, cid, booking);
      if cid !in s.contracts then r == Outcome(s, Err(NotFound))
      else if s.contracts[cid].clientId != user then r == Outcome(s, Err(Forbidden))
      else if s.contracts[cid].status != Pending then r == Outcome(s, Err(BadRequest))
      else match booking
        case None => r == Outcome(s, Err(Conflict))
        case Some(Err(error)) => r == Outcome(s, Err(error))
        case Some(Ok(_)) =>
          var rid := s.contracts[cid].requestId;
          && rid in s.requests && r.result == Ok(())
          && BothBecome(s, r.store, cid, Confirmed, now, s.requests[rid].(status := Matched))
  {
    if cid in s.contracts && s.contracts[cid].status == Pending { PendingAssigned(s, cid); }
  }

  lemma PendingAssigned(s: Store, cid: Id)
    requires Inv(s) && cid in s.contracts && Live(s.contracts[cid])
    ensures s.contracts[cid].requestId in s.requests
    ensures s.requests[s.contracts[cid].requestId].assignedContract == Some(cid)
  {
    assert ContractOk(s, cid);
  }

  /** Either party cancels a pending or confirmed contract, which puts the request back on the market. */
  lemma CancelExact(s: Store, now: int, user: string, cid: Id)
    requires Inv(s)
    ensures var r := CancelContract(s, now, user, cid);
      if cid !in s.contracts then r == Outcome(s, Err(NotFound))
      else if user != s.contracts[cid].clientId && user != s.contracts[cid].providerId
      then r == Outcome(s, Err(Forbidden))
      else if s.contracts[cid].status == Completed then r == Outcome(s, Err(BadRequest))
      else if s.contracts[cid].status == ContractStatus.Cancelled then r == Outcome(s, Ok(()))
      else
        var rid := s.contracts[cid].requestId;
        && rid in s.requests && r.result == Ok(())
        && BothBecome(s, r.store, cid, ContractStatus.Cancelled, now, s.requests[rid].(
             status := Published, matchedProvider := None, assignedContract := None))
  {
    if cid in s.contracts && Live(s.contracts[cid]) { PendingAssigned(s, cid); }
  }

  /** Either party completes a confirmed contract, which closes the request. */
  lemma CompleteExact(s: Store, now: int, user: string, cid: Id)
    requires Inv(s)
    ensures var r := CompleteContract(s, now, user, cid);
      if cid !in s.contracts then r == Outcome(s, Err(NotFound))
      else if user != s.contracts[cid].clientId && user != s.contracts[cid].providerId
      then r == Outcome(s, Err(Forbidden))
      else match s.contracts[cid].status
        case Completed => r == Outcome(s, Ok(()))
        case Confirmed =>
          var rid := s.contracts[cid].requestId;
          && rid in s.requests && r.result == Ok(())
          && BothBecome(s, r.store, cid, Completed, now, s.requests[rid].(status := Closed))
        case _ => r == Outcome(s, Err(BadRequest))
  {
    if cid in s.contracts {
      assert ContractOk(s, cid);
      if Live(s.contracts[cid]) { PendingAssigned(s, cid); }
    }
  }

  /** A provider who may offer on an unmatched request gets the contract as soon as the client accepts. */
  lemma NewOfferWins(s: Store, now: int, client: string, rid: Id, provider: string, ctx: OfferContext)
    requires Inv(s) && MayOffer(s, provider, rid) && s.requests[rid].matchedProvider.None?
    requires s.requests[rid].clientId == Some(client)
    requires !ctx.overDailyLimit && ctx.amountOk && !ctx.providerBlocked
    ensures var offered := CreateOffer(s, provider, rid, ctx);
      && offered.result == Ok(s.nextId)
      && var accepted := Accept(offered.store, now, client, s.nextId);
         && accepted.result == Ok(())
         && accepted.store.contracts
              == s.contracts[s.nextId + 1 := Contract(rid, s.nextId, client, provider, Pending, now)]
  {
    OfferExact(s, provider, rid, ctx);
    CreateOfferKeeps(s, provider, rid, ctx);
    AcceptExact(CreateOffer(s, provider, rid, ctx).store, now, client, s.nextId);
  }

  /**
   * After a contract is cancelled every provider other than the client who has not offered before can offer, and
   * the offer can be accepted at once.
   */
  lemma CancelReopensMarket(s: Store, now: int, user: string, cid: Id, provider: string, ctx: OfferContext)
    requires Inv(s) && cid in s.contracts && s.contracts[cid].status in {Pending, Confirmed}
    requires user in {s.contracts[cid].clientId, s.contracts[cid].providerId}
    requires provider != s.contracts[cid].clientId && !ctx.overDailyLimit && ctx.amountOk && !ctx.providerBlocked
    requires forall o | o in s.offers && s.offers[o].requestId == s.contracts[cid].requestId ::
      s.offers[o].providerId != provider
    ensures var reopened := CancelContract(s, now, user, cid).store;
      var offered := CreateOffer(reopened, provider, s.contracts[cid].requestId, ctx);
      && offered.result == Ok(s.nextId)
      && Accept(offered.store, now, s.contracts[cid].clientId, s.nextId).result == Ok(())
  {
    var rid, reopened := s.contracts[cid].requestId, CancelContract(s, now, user, cid).store;
    CancelExact(s, now, user, cid);
    CancelContractKeeps(s, now, user, cid);
    ClientOfContract(s, cid);
    NewOfferWins(reopened, now, s.contracts[cid].clientId, rid, provider, ctx);
  }

  lemma ClientOfContract(s: Store, cid: Id)
    requires Inv(s) && cid in s.contracts
    ensures s.contracts[cid].requestId in s.requests
    ensures s.requests[s.contracts[cid].requestId].clientId == Some(s.contracts[cid].clientId)
  {
    assert ContractOk(s, cid) && OfferOk(s, s.contracts[cid].offerId);
  }

  /**
   * Conditional writes on stores no run reaches: a request that is assigned to another contract is left alone by
   * all three calls.
   */
  lemma OthersRequestUntouched(s: Store, now: int, user: string, cid: Id, booking: Option<Result<()>>)
    requires cid in s.contracts && s.contracts[cid].requestId in s.requests
    requires s.requests[s.contracts[cid].requestId].assignedContract.Some?
    requires s.requests[s.contracts[cid].requestId].assignedContract != Some(cid)
    ensures Confirm(s, now, user, cid, booking).store.requests == s.requests
    ensures CancelContract(s, now, user, cid).store.requests == s.requests
    ensures CompleteContract(s, now, user, cid).store.requests == s.requests
  {
  }
}
