/** What every run of request, offer and contract calls keeps. */
module MarketplaceRuns {
  import opened Common
  import opened Marketplace

  // ---- The invariant ----

  predicate Live(c: Contract) { c.status != ContractStatus.Cancelled }

  ghost predicate IdsFresh(s: Store) {
    && (forall k | k in s.requests :: k < s.nextId)
    && (forall k | k in s.offers :: k < s.nextId)
    && (forall k | k in s.contracts :: k < s.nextId)
  }

  /** The offer belongs to a stored request and its owner. */
  ghost predicate OfferOk(s: Store, o: Id)
    requires o in s.offers
  {
    && s.offers[o].requestId in s.requests
    && s.requests[s.offers[o].requestId].clientId == Some(s.offers[o].clientId)
  }

  ghost predicate HasContract(s: Store, o: Id) {
    exists c | c in s.contracts :: s.contracts[c].offerId == o
  }

  /** The contract belongs to an accepted offer and, unless cancelled, is the one its request is assigned to. */
  ghost predicate ContractOk(s: Store, c: Id)
    requires c in s.contracts
  {
    var k := s.contracts[c];
    && k.offerId in s.offers && s.offers[k.offerId].status == Accepted
    && s.offers[k.offerId].requestId == k.requestId
    && s.offers[k.offerId].providerId == k.providerId && s.offers[k.offerId].clientId == k.clientId
    && k.status != InProgress
    && (k.status != ContractStatus.Cancelled ==>
          k.requestId in s.requests && s.requests[k.requestId].assignedContract == Some(c))
  }

  /** The request and the contract it is assigned to agree. */
  ghost predicate RequestOk(s: Store, r: Id)
    requires r in s.requests
  {
    match s.requests[r].assignedContract
    case None => s.requests[r].matchedProvider.None? && !Settled(s.requests[r].status)
    case Some(c) =>
      && c in s.contracts && s.contracts[c].requestId == r
      && s.contracts[c].status != ContractStatus.Cancelled
      && s.requests[r].matchedProvider == Some(s.contracts[c].providerId)
      && (s.requests[r].status == Matched <==> s.contracts[c].status == Confirmed)
      && (s.requests[r].status == Closed <==> s.contracts[c].status == Completed)
  }

  ghost predicate OneContractPerOffer(s: Store) {
    forall c, d | c in s.contracts && d in s.contracts && c != d :: s.contracts[c].offerId != s.contracts[d].offerId
  }

  ghost predicate RequestsOk(s: Store) { forall r | r in s.requests :: RequestOk(s, r) }

  ghost predicate OffersOk(s: Store) { forall o | o in s.offers :: OfferOk(s, o) }

  ghost predicate ContractsOk(s: Store) { forall c | c in s.contracts :: ContractOk(s, c) }

  /** Every accepted offer has a contract. */
  ghost predicate AcceptedBacked(s: Store) {
    forall o | o in s.offers && s.offers[o].status == Accepted :: HasContract(s, o)
  }

  ghost predicate Inv(s: Store) {
    IdsFresh(s) && RequestsOk(s) && OffersOk(s) && ContractsOk(s) && OneContractPerOffer(s) && AcceptedBacked(s)
  }

  lemma BackedGrows(s: Store, t: Store)
    requires AcceptedBacked(s)
    requires forall c | c in s.contracts :: c in t.contracts && t.contracts[c].offerId == s.contracts[c].offerId
    requires forall o | o in t.offers && t.offers[o].status == Accepted ::
      HasContract(t, o) || (o in s.offers && s.offers[o].status == Accepted)
    ensures AcceptedBacked(t)
  {
    forall o | o in t.offers && t.offers[o].status == Accepted ensures HasContract(t, o) {
      if o in s.offers && s.offers[o].status == Accepted {
        var c :| c in s.contracts && s.contracts[c].offerId == o;
        assert t.contracts[c].offerId == o;
      }
    }
  }

  // ---- Preservation ----

  /** A request changes in ways that neither its owner nor its contract can tell. */
  ghost predicate SameTies(x: Request, y: Request) {
    && x.clientId == y.clientId && x.matchedProvider == y.matchedProvider && x.assignedContract == y.assignedContract
    && (x.status == Matched <==> y.status == Matched) && (x.status == Closed <==> y.status == Closed)
  }

  lemma TouchRequestKeeps(s: Store, rid: Id, r: Request)
    requires Inv(s) && rid in s.requests && SameTies(s.requests[rid], r)
    ensures Inv(s.(requests := s.requests[rid := r]))
  {
    var t := s.(requests := s.requests[rid := r]);
    assert RequestsOk(t) by { forall k | k in t.requests ensures RequestOk(t, k) { assert RequestOk(s, k); } }
    assert OffersOk(t) by { forall o | o in t.offers ensures OfferOk(t, o) { assert OfferOk(s, o); } }
    assert ContractsOk(t) by { forall c | c in t.contracts ensures ContractOk(t, c) { assert ContractOk(s, c); } }
    BackedGrows(s, t);
  }

  lemma InsertRequestKeeps(s: Store, r: Request)
    requires Inv(s) && r.matchedProvider.None? && r.assignedContract.None? && !Settled(r.status)
    ensures Inv(InsertRequest(s, r).store)
  {
    var t := InsertRequest(s, r).store;
    forall k | k in t.requests ensures RequestOk(t, k) {
      if k in s.requests { assert RequestOk(s, k); }
    }
    assert OffersOk(t) by { forall o | o in t.offers ensures OfferOk(t, o) { assert OfferOk(s, o); } }
    assert ContractsOk(t) by { forall c | c in t.contracts ensures ContractOk(t, c) { assert ContractOk(s, c); } }
    BackedGrows(s, t);
  }

  lemma RemoveRequestKeeps(s: Store, rid: Id)
    requires Inv(s) && !HasOffers(s.offers, rid)
    ensures Inv(s.(requests := s.requests - {rid}))
  {
    var t := s.(requests := s.requests - {rid});
    assert RequestsOk(t) by { forall k | k in t.requests ensures RequestOk(t, k) { assert RequestOk(s, k); } }
    assert OffersOk(t) by { forall o | o in t.offers ensures OfferOk(t, o) { assert OfferOk(s, o); } }
    assert ContractsOk(t) by {
      forall c | c in t.contracts ensures ContractOk(t, c) {
        assert ContractOk(s, c);
        assert s.offers[s.contracts[c].offerId].requestId != rid;
      }
    }
    BackedGrows(s, t);
  }

  lemma InsertOfferKeeps(s: Store, o: Offer)
    requires Inv(s) && o.requestId in s.requests && s.requests[o.requestId].clientId == Some(o.clientId)
    requires o.status == Sent
    ensures Inv(s.(offers := s.offers[s.nextId := o], nextId := s.nextId + 1))
  {
    var t := s.(offers := s.offers[s.nextId := o], nextId := s.nextId + 1);
    assert RequestsOk(t) by { forall k | k in t.requests ensures RequestOk(t, k) { assert RequestOk(s, k); } }
    forall k | k in t.offers ensures OfferOk(t, k) {
      if k in s.offers { assert OfferOk(s, k); }
    }
    assert ContractsOk(t) by { forall c | c in t.contracts ensures ContractOk(t, c) { assert ContractOk(s, c); } }
    BackedGrows(s, t);
  }

  lemma RemoveOfferKeeps(s: Store, oid: Id)
    requires Inv(s) && oid in s.offers && s.offers[oid].status == Sent
    ensures Inv(s.(offers := s.offers - {oid}))
  {
    var t := s.(offers := s.offers - {oid});
    assert RequestsOk(t) by { forall k | k in t.requests ensures RequestOk(t, k) { assert RequestOk(s, k); } }
    assert OffersOk(t) by { forall k | k in t.offers ensures OfferOk(t, k) { assert OfferOk(s, k); } }
    assert ContractsOk(t) by { forall c | c in t.contracts ensures ContractOk(t, c) { assert ContractOk(s, c); } }
    BackedGrows(s, t);
  }

  lemma DeclineOneKeeps(s: Store, oid: Id)
    requires Inv(s) && oid in s.offers && s.offers[oid].status != Accepted
    ensures Inv(SetOffer(s, oid, Declined))
  {
    var t := SetOffer(s, oid, Declined);
    assert RequestsOk(t) by { forall k | k in t.requests ensures RequestOk(t, k) { assert RequestOk(s, k); } }
    assert OffersOk(t) by { forall k | k in t.offers ensures OfferOk(t, k) { assert OfferOk(s, k); } }
    assert ContractsOk(t) by { forall c | c in t.contracts ensures ContractOk(t, c) { assert ContractOk(s, c); } }
    BackedGrows(s, t);
  }

  lemma DeclineOthersKeeps(s: Store, rid: Id, winner: Id)
    requires Inv(s)
    ensures Inv(DeclineOthers(s, rid, winner))
  {
    var t := DeclineOthers(s, rid, winner);
    assert RequestsOk(t) by { forall k | k in t.requests ensures RequestOk(t, k) { assert RequestOk(s, k); } }
    assert OffersOk(t) by { forall k | k in t.offers ensures OfferOk(t, k) { assert OfferOk(s, k); } }
    assert ContractsOk(t) by { forall c | c in t.contracts ensures ContractOk(t, c) { assert ContractOk(s, c); } }
    BackedGrows(s, t);
  }

  /** The store once a request is locked, the offer accepted and its new contract assigned. */
  ghost function Won(s: Store, now: int, clientId: string, oid: Id): Store
    requires oid in s.offers && s.offers[oid].requestId in s.requests
  {
    var o := s.offers[oid];
    Store(s.requests[o.requestId := s.requests[o.requestId].(
                       status := Paused, matchedProvider := Some(o.providerId), assignedContract := Some(s.nextId))],
          s.offers[oid := o.(status := Accepted)],
          s.contracts[s.nextId := NewContract(o, oid, clientId, now)],
          s.nextId + 1)
  }

  ghost predicate Winnable(s: Store, clientId: string, oid: Id) {
    && oid in s.offers && s.offers[oid].status == Sent
    && s.offers[oid].requestId in s.requests && Lockable(s.requests[s.offers[oid].requestId], clientId)
  }

  lemma WonKeepsRequests(s: Store, now: int, clientId: string, oid: Id)
    requires Inv(s) && Winnable(s, clientId, oid)
    ensures RequestsOk(Won(s, now, clientId, oid))
  {
    var t, rid := Won(s, now, clientId, oid), s.offers[oid].requestId;
    forall k | k in t.requests ensures RequestOk(t, k) {
      if k != rid {
        assert RequestOk(s, k);
        assert t.requests[k] == s.requests[k];
      }
    }
  }

  lemma WonKeepsContracts(s: Store, now: int, clientId: string, oid: Id)
    requires Inv(s) && Winnable(s, clientId, oid)
    ensures ContractsOk(Won(s, now, clientId, oid))
  {
    var t, o := Won(s, now, clientId, oid), s.offers[oid];
    assert OfferOk(s, oid) && RequestOk(s, o.requestId);
    forall c | c in t.contracts ensures ContractOk(t, c) {
      if c in s.contracts {
        assert ContractOk(s, c);
        assert t.contracts[c] == s.contracts[c];
      }
    }
  }

  lemma WonKeepsOffers(s: Store, now: int, clientId: string, oid: Id)
    requires Inv(s) && Winnable(s, clientId, oid)
    ensures OffersOk(Won(s, now, clientId, oid)) && IdsFresh(Won(s, now, clientId, oid))
  {
    var t := Won(s, now, clientId, oid);
    forall k | k in t.offers ensures OfferOk(t, k) { assert OfferOk(s, k); }
  }

  lemma WonKeepsBacking(s: Store, now: int, clientId: string, oid: Id)
    requires Inv(s) && Winnable(s, clientId, oid)
    ensures AcceptedBacked(Won(s, now, clientId, oid)) && OneContractPerOffer(Won(s, now, clientId, oid))
  {
    var t := Won(s, now, clientId, oid);
    assert t.contracts[s.nextId].offerId == oid;
    assert HasContract(t, oid);
    BackedGrows(s, t);
    forall c | c in s.contracts ensures s.contracts[c].offerId != oid { assert ContractOk(s, c); }
  }

  lemma WonKeeps(s: Store, now: int, clientId: string, oid: Id)
    requires Inv(s) && Winnable(s, clientId, oid)
    ensures Inv(Won(s, now, clientId, oid))
  {
    WonKeepsRequests(s, now, clientId, oid);
    WonKeepsContracts(s, now, clientId, oid);
    WonKeepsOffers(s, now, clientId, oid);
    WonKeepsBacking(s, now, clientId, oid);
  }

  /** A sent offer has no contract, so the accept creates one: the branch that finds one is dead. */
  lemma AcceptCases(s: Store, now: int, clientId: string, oid: Id)
    requires Inv(s) && AcceptCheck(s, clientId, oid) == Ok(true)
    requires Lockable(s.requests[s.offers[oid].requestId], clientId)
    ensures Accept(s, now, clientId, oid)
      == Outcome(DeclineOthers(Won(s, now, clientId, oid), s.offers[oid].requestId, oid), Ok(()))
  {
    var o := s.offers[oid];
    var s1 := SetOffer(Lock(s, o.requestId, o.providerId), oid, Accepted);
    forall c | c in s.contracts ensures s.contracts[c].offerId != oid { assert ContractOk(s, c); }
    assert ContractOf(s1, oid, 0).None?;
    var s2 := InsertContract(s1, NewContract(o, oid, clientId, now));
    assert Assign(s2, o.requestId, s.nextId) == Won(s, now, clientId, oid);
  }

  lemma AcceptKeeps(s: Store, now: int, clientId: string, oid: Id)
    requires Inv(s)
    ensures Inv(Accept(s, now, clientId, oid).store)
  {
    if AcceptCheck(s, clientId, oid) == Ok(true) && Lockable(s.requests[s.offers[oid].requestId], clientId) {
      AcceptCases(s, now, clientId, oid);
      WonKeeps(s, now, clientId, oid);
      DeclineOthersKeeps(Won(s, now, clientId, oid), s.offers[oid].requestId, oid);
    }
  }

  /** The live contract `cid` moves to `k` and its request, at the same time, to `r`. */
  ghost predicate MovesTogether(s: Store, t: Store, cid: Id, k: Contract, r: Request) {
    && cid in s.contracts && s.contracts[cid].requestId in s.requests
    && k == s.contracts[cid].(status := k.status, updatedAt := k.updatedAt) && k.status != InProgress
    && t.requests == s.requests[k.requestId := r] && t.offers == s.offers
    && t.contracts == s.contracts[cid := k] && t.nextId == s.nextId
    && r.clientId == s.requests[k.requestId].clientId
  }

  /** The request's new state fits the contract's new state. */
  ghost predicate Fits(cid: Id, k: Contract, r: Request) {
    && (!Live(k) ==> r.assignedContract.None? && r.matchedProvider.None? && !Settled(r.status))
    && (Live(k) ==>
          && r.assignedContract == Some(cid) && r.matchedProvider == Some(k.providerId)
          && (r.status == Matched <==> k.status == Confirmed) && (r.status == Closed <==> k.status == Completed))
  }

  lemma MoveKeepsRequests(s: Store, t: Store, cid: Id, k: Contract, r: Request)
    requires RequestsOk(s) && MovesTogether(s, t, cid, k, r) && Fits(cid, k, r)
    ensures RequestsOk(t)
  {
    forall q | q in t.requests ensures RequestOk(t, q) {
      if q != k.requestId {
        assert RequestOk(s, q);
        assert t.requests[q] == s.requests[q];
      }
    }
  }

  lemma MoveKeepsContracts(s: Store, t: Store, cid: Id, k: Contract, r: Request)
    requires ContractsOk(s) && MovesTogether(s, t, cid, k, r) && Fits(cid, k, r)
    requires s.requests[k.requestId].assignedContract == Some(cid)
    ensures ContractsOk(t)
  {
    forall c | c in t.contracts ensures ContractOk(t, c) {
      assert ContractOk(s, c);
      if c != cid { assert t.contracts[c] == s.contracts[c]; }
    }
  }

  lemma MoveKeepsRest(s: Store, t: Store, cid: Id, k: Contract, r: Request)
    requires IdsFresh(s) && OffersOk(s) && OneContractPerOffer(s) && AcceptedBacked(s)
    requires MovesTogether(s, t, cid, k, r)
    ensures IdsFresh(t) && OffersOk(t) && OneContractPerOffer(t) && AcceptedBacked(t)
  {
    assert OffersOk(t) by { forall o | o in t.offers ensures OfferOk(t, o) { assert OfferOk(s, o); } }
    assert OneContractPerOffer(t) by {
      assert forall c | c in t.contracts :: t.contracts[c].offerId == s.contracts[c].offerId;
    }
    BackedGrows(s, t);
  }

  lemma MoveKeeps(s: Store, t: Store, cid: Id, k: Contract, r: Request)
    requires Inv(s) && MovesTogether(s, t, cid, k, r) && Fits(cid, k, r) && Live(s.contracts[cid])
    ensures Inv(t)
  {
    MoveKeepsRest(s, t, cid, k, r);
    MoveKeepsRequests(s, t, cid, k, r);
    assert ContractsOk(t) by {
      assert ContractOk(s, cid);
      MoveKeepsContracts(s, t, cid, k, r);
    }
  }

  // ---- Runs ----

  datatype Step =
    | CallCreatePublic(owner: Option<string>, input: RequestContext)
    | CallCreateForClient(user: string, input: RequestContext)
    | CallDuplicate(user: string, id: Id)
    | CallPublish(user: string, id: Id)
    | CallUnpublish(user: string, id: Id)
    | CallArchive(now: int, user: string, id: Id)
    | CallDelete(now: int, user: string, id: Id, watched: bool)
    | CallCreateOffer(user: string, id: Id, ctx: OfferContext)
    | CallDeleteOffer(user: string, id: Id)
    | CallAccept(now: int, user: string, id: Id)
    | CallDecline(user: string, id: Id)
    | CallConfirm(now: int, user: string, id: Id, booking: Option<Result<()>>)
    | CallCancelContract(now: int, user: string, id: Id)
    | CallCompleteContract(now: int, user: string, id: Id)

  function Apply(s: Store, step: Step): Store {
    match step
    case CallCreatePublic(owner, input) => CreatePublic(s, owner, input).store
    case CallCreateForClient(user, input) => CreateForClient(s, user, input).store
    case CallDuplicate(user, id) => Duplicate(s, user, id).store
    case CallPublish(user, id) => Publish(s, user, id).store
    case CallUnpublish(user, id) => Unpublish(s, user, id).store
    case CallArchive(now, user, id) => Archive(s, now, user, id).store
    case CallDelete(now, user, id, watched) => Delete(s, now, user, id, watched).store
    case CallCreateOffer(user, id, ctx) => CreateOffer(s, user, id, ctx).store
    case CallDeleteOffer(user, id) => DeleteOffer(s, user, id).store
    case CallAccept(now, user, id) => Accept(s, now, user, id).store
    case CallDecline(user, id) => Decline(s, user, id).store
    case CallConfirm(now, user, id, booking) => Confirm(s, now, user, id, booking).store
    case CallCancelContract(now, user, id) => CancelContract(s, now, user, id).store
    case CallCompleteContract(now, user, id) => CompleteContract(s, now, user, id).store
  }

  function Run(s: Store, steps: seq<Step>): Store
    decreases |steps|
  {
    if steps == [] then s else Run(Apply(s, steps[0]), steps[1..])
  }

  lemma PublishKeeps(s: Store, user: string, id: Id)
    requires Inv(s)
    ensures Inv(Publish(s, user, id).store) && Inv(Unpublish(s, user, id).store)
  {
    if Publish(s, user, id).result.Ok? {
      TouchRequestKeeps(s, id, s.requests[id].(status := Published, purgeAt := None));
    }
    if Unpublish(s, user, id).result.Ok? {
      TouchRequestKeeps(s, id, s.requests[id].(status := Paused, purgeAt := None));
    }
  }

  lemma DeleteKeeps(s: Store, now: int, user: string, id: Id, watched: bool)
    requires Inv(s)
    ensures Inv(Delete(s, now, user, id, watched).store)
  {
    var r := Delete(s, now, user, id, watched);
    if r.result == Ok(Removed) {
      RemoveRequestKeeps(s, id);
    } else if r.result == Ok(Retained) {
      TouchRequestKeeps(s, id, s.requests[id].(status := RequestStatus.Cancelled, purgeAt := Some(now + RETENTION_MS)));
    }
  }

  lemma ConfirmKeeps(s: Store, now: int, user: string, id: Id, booking: Option<Result<()>>)
    requires Inv(s)
    ensures Inv(Confirm(s, now, user, id, booking).store)
  {
    var t := Confirm(s, now, user, id, booking);
    if t.result.Ok? {
      assert ContractOk(s, id) && RequestOk(s, s.contracts[id].requestId);
      var rid := s.contracts[id].requestId;
      var r := s.requests[rid].(status := Matched, assignedContract := Some(id));
      MoveKeeps(s, t.store, id, s.contracts[id].(status := Confirmed, updatedAt := now), r);
    }
  }

  lemma CompleteContractKeeps(s: Store, now: int, user: string, id: Id)
    requires Inv(s)
    ensures Inv(CompleteContract(s, now, user, id).store)
  {
    var t := CompleteContract(s, now, user, id);
    if t.store != s {
      assert ContractOk(s, id) && RequestOk(s, s.contracts[id].requestId);
      var r := s.requests[s.contracts[id].requestId].(status := Closed);
      MoveKeeps(s, t.store, id, s.contracts[id].(status := Completed, updatedAt := now), r);
    }
  }

  lemma CancelContractKeeps(s: Store, now: int, user: string, id: Id)
    requires Inv(s)
    ensures Inv(CancelContract(s, now, user, id).store)
  {
    var t := CancelContract(s, now, user, id);
    if t.store != s {
      assert ContractOk(s, id);
      var r := s.requests[s.contracts[id].requestId].(
        status := Published, matchedProvider := None, assignedContract := None);
      MoveKeeps(s, t.store, id, s.contracts[id].(status := ContractStatus.Cancelled, updatedAt := now), r);
    }
  }

  lemma CreateOfferKeeps(s: Store, user: string, id: Id, ctx: OfferContext)
    requires Inv(s)
    ensures Inv(CreateOffer(s, user, id, ctx).store)
  {
    if CreateOffer(s, user, id, ctx).result.Ok? {
      InsertOfferKeeps(s, Offer(id, user, s.requests[id].clientId.value, Sent));
    }
  }

  lemma DeleteOfferKeeps(s: Store, user: string, id: Id)
    requires Inv(s)
    ensures Inv(DeleteOffer(s, user, id).store)
  {
    if DeleteOffer(s, user, id).result.Ok? { RemoveOfferKeeps(s, id); }
  }

  lemma DeclineKeeps(s: Store, user: string, id: Id)
    requires Inv(s)
    ensures Inv(Decline(s, user, id).store)
  {
    if id in s.offers && s.offers[id].status != Accepted { DeclineOneKeeps(s, id); }
  }

  lemma ArchiveKeeps(s: Store, now: int, user: string, id: Id)
    requires Inv(s)
    ensures Inv(Archive(s, now, user, id).store)
  {
    if Owned(s, user, id) { TouchRequestKeeps(s, id, s.requests[id].(archivedAt := Some(now))); }
  }

  lemma ApplyKeeps(s: Store, step: Step)
    requires Inv(s)
    ensures Inv(Apply(s, step))
  {
    match step
    case CallCreateOffer(user, id, ctx) => CreateOfferKeeps(s, user, id, ctx);
    case CallDeleteOffer(user, id) => DeleteOfferKeeps(s, user, id);
    case CallAccept(now, user, id) => AcceptKeeps(s, now, user, id);
    case CallDecline(user, id) => DeclineKeeps(s, user, id);
    case CallConfirm(now, user, id, booking) => ConfirmKeeps(s, now, user, id, booking);
    case CallCancelContract(now, user, id) => CancelContractKeeps(s, now, user, id);
    case CallCompleteContract(now, user, id) => CompleteContractKeeps(s, now, user, id);
    case CallCreatePublic(owner, input) => InsertRequestKeeps(s, NewRequest(owner, Published));
    case CallCreateForClient(user, input) => InsertRequestKeeps(s, NewRequest(Some(user), Draft));
    case CallDuplicate(user, id) => InsertRequestKeeps(s, NewRequest(Some(user), Draft));
    case CallPublish(user, id) => PublishKeeps(s, user, id);
    case CallUnpublish(user, id) => PublishKeeps(s, user, id);
    case CallArchive(now, user, id) => ArchiveKeeps(s, now, user, id);
    case CallDelete(now, user, id, watched) => DeleteKeeps(s, now, user, id, watched);
  }

  lemma {:induction false} RunKeepsInv(s: Store, steps: seq<Step>)
    requires Inv(s)
    ensures Inv(Run(s, steps))
    decreases |steps|
  {
    if steps != [] {
      ApplyKeeps(s, steps[0]);
      RunKeepsInv(Apply(s, steps[0]), steps[1..]);
    }
  }

  const EMPTY := Store(map[], map[], map[], 0)

  /** Some run of the calls has led here from the empty store. */
  ghost predicate Reachable(s: Store) {
    exists steps :: s == Run(EMPTY, steps)
  }

  lemma {:induction false} RunSnoc(s: Store, steps: seq<Step>, last: Step)
    ensures Run(s, steps + [last]) == Apply(Run(s, steps), last)
    decreases |steps|
  {
    if steps == [] {
      assert [last][1..] == [];
    } else {
      assert (steps + [last])[1..] == steps[1..] + [last];
      RunSnoc(Apply(s, steps[0]), steps[1..], last);
    }
  }

  lemma ReachableNext(s: Store, step: Step)
    ensures Reachable(s) ==> Reachable(Apply(s, step))
  {
    if Reachable(s) {
      var steps :| s == Run(EMPTY, steps);
      RunSnoc(EMPTY, steps, step);
    }
  }

  lemma ReachableInv(s: Store)
    requires Reachable(s)
    ensures Inv(s)
  {
    var steps :| s == Run(EMPTY, steps);
    RunKeepsInv(EMPTY, steps);
  }

  // ---- What that means ----

  /**
   * After every run a request has at most one live contract; it is the assigned one, its provider is the
   * matched one, and the request is matched or closed exactly while that contract is confirmed or completed.
   */
  lemma ReachableContracts(steps: seq<Step>, rid: Id)
    requires rid in Run(EMPTY, steps).requests
    ensures var s := Run(EMPTY, steps);
      var r := s.requests[rid];
      && (forall c | c in s.contracts :: Live(s.contracts[c]) && s.contracts[c].requestId == rid <==>
            r.assignedContract == Some(c))
      && (r.assignedContract.Some? ==>
            && r.assignedContract.value in s.contracts
            && r.matchedProvider == Some(s.contracts[r.assignedContract.value].providerId))
      && (r.assignedContract.None? ==> r.matchedProvider.None?)
      && (r.status == Matched <==> exists c | c in s.contracts ::
            s.contracts[c].requestId == rid && s.contracts[c].status == Confirmed)
      && (r.status == Closed <==> exists c | c in s.contracts ::
            s.contracts[c].requestId == rid && s.contracts[c].status == Completed)
  {
    RunKeepsInv(EMPTY, steps);
    var s := Run(EMPTY, steps);
    assert RequestOk(s, rid);
    forall c | c in s.contracts
      ensures Live(s.contracts[c]) && s.contracts[c].requestId == rid <==> s.requests[rid].assignedContract == Some(c)
    {
      assert ContractOk(s, c);
    }
  }

  /**
   * After every run accepted offers and contracts correspond one to one, and no offer or contract
   * refers to a request that was removed.
   */
  lemma ReachableCorrespondence(steps: seq<Step>)
    ensures var s := Run(EMPTY, steps);
      && (forall o | o in s.offers :: s.offers[o].requestId in s.requests)
      && (forall c | c in s.contracts :: s.contracts[c].requestId in s.requests)
      && (forall c | c in s.contracts :: s.contracts[c].offerId in s.offers
            && s.offers[s.contracts[c].offerId].status == Accepted
            && s.offers[s.contracts[c].offerId].requestId == s.contracts[c].requestId)
      && (forall o | o in s.offers && s.offers[o].status == Accepted ::
            exists c :: c in s.contracts && s.contracts[c].offerId == o)
      && (forall c, d | c in s.contracts && d in s.contracts && s.contracts[c].offerId == s.contracts[d].offerId ::
         c == d)
  {
    RunKeepsInv(EMPTY, steps);
    var s := Run(EMPTY, steps);
    forall o | o in s.offers
      ensures s.offers[o].requestId in s.requests
      ensures s.offers[o].status == Accepted ==> exists c :: c in s.contracts && s.contracts[c].offerId == o
    {
      assert OfferOk(s, o);
      if s.offers[o].status == Accepted { assert HasContract(s, o); }
    }
    forall c | c in s.contracts
      ensures s.contracts[c].requestId in s.requests && s.contracts[c].offerId in s.offers
      ensures s.offers[s.contracts[c].offerId].status == Accepted
      ensures s.offers[s.contracts[c].offerId].requestId == s.contracts[c].requestId
    {
      assert ContractOk(s, c) && OfferOk(s, s.contracts[c].offerId);
    }
  }

  // ---- What the caller of a successful call gets ----

  /** The contract's request is assigned to it and in the given state. */
  ghost predicate CarriedBy(s: Store, cid: Id, status: RequestStatus) {
    && cid in s.contracts && s.contracts[cid].requestId in s.requests
    && s.requests[s.contracts[cid].requestId].assignedContract == Some(cid)
    && s.requests[s.contracts[cid].requestId].status == status
  }

  /** The contract is cancelled and no request is assigned to it. */
  ghost predicate LetGo(s: Store, cid: Id) {
    && cid in s.contracts && s.contracts[cid].status == ContractStatus.Cancelled
    && forall r | r in s.requests :: s.requests[r].assignedContract != Some(cid)
  }

  /** The contract's request is back on the market. */
  ghost predicate Reopened(s: Store, cid: Id) {
    && cid in s.contracts && s.contracts[cid].requestId in s.requests
    && s.requests[s.contracts[cid].requestId].status == Published
    && s.requests[s.contracts[cid].requestId].matchedProvider.None?
    && s.requests[s.contracts[cid].requestId].assignedContract.None?
  }

  /** The offer is accepted and one contract, no more, was made from it. */
  ghost predicate Contracted(s: Store, oid: Id) {
    && oid in s.offers && s.offers[oid].status == Accepted && HasContract(s, oid)
    && forall c, d | c in s.contracts && d in s.contracts
       && s.contracts[c].offerId == oid == s.contracts[d].offerId :: c == d
  }

  lemma SoundContract(s: Store, cid: Id)
    requires Inv(s) && cid in s.contracts
    ensures s.contracts[cid].status == Confirmed ==> CarriedBy(s, cid, Matched)
    ensures s.contracts[cid].status == Completed ==> CarriedBy(s, cid, Closed)
    ensures s.contracts[cid].status == ContractStatus.Cancelled ==> LetGo(s, cid)
  {
    assert ContractOk(s, cid);
    forall r | r in s.requests ensures RequestOk(s, r) {
    }
  }

  /** An accept that succeeds, the first time or again, leaves the offer accepted with just one contract. */
  lemma AcceptGives(s: Store, now: int, clientId: string, oid: Id)
    ensures Reachable(s) && Accept(s, now, clientId, oid).result.Ok? ==>
      Contracted(Accept(s, now, clientId, oid).store, oid)
  {
    if Reachable(s) && Accept(s, now, clientId, oid).result.Ok? {
      ReachableInv(s);
      AcceptKeeps(s, now, clientId, oid);
      var t := Accept(s, now, clientId, oid).store;
      if t != s { AcceptCases(s, now, clientId, oid); }
      assert t.offers[oid].status == Accepted;
    }
  }

  lemma ConfirmGives(s: Store, now: int, user: string, cid: Id, booking: Option<Result<()>>)
    ensures Reachable(s) && Confirm(s, now, user, cid, booking).result.Ok? ==>
      CarriedBy(Confirm(s, now, user, cid, booking).store, cid, Matched)
  {
    if Reachable(s) && Confirm(s, now, user, cid, booking).result.Ok? {
      ReachableInv(s);
      ConfirmKeeps(s, now, user, cid, booking);
      SoundContract(Confirm(s, now, user, cid, booking).store, cid);
    }
  }

  lemma CompleteGives(s: Store, now: int, user: string, cid: Id)
    ensures Reachable(s) && CompleteContract(s, now, user, cid).result.Ok? ==>
      CarriedBy(CompleteContract(s, now, user, cid).store, cid, Closed)
  {
    if Reachable(s) && CompleteContract(s, now, user, cid).result.Ok? {
      ReachableInv(s);
      CompleteContractKeeps(s, now, user, cid);
      assert Live(s.contracts[cid]) && ContractOk(s, cid);
      SoundContract(CompleteContract(s, now, user, cid).store, cid);
    }
  }

  lemma CancelGives(s: Store, now: int, user: string, cid: Id)
    ensures Reachable(s) && CancelContract(s, now, user, cid).result.Ok? ==>
      LetGo(CancelContract(s, now, user, cid).store, cid)
    ensures Reachable(s) && cid in s.contracts && Live(s.contracts[cid]) ==>
      CancelContract(s, now, user, cid).result.Ok? ==> Reopened(CancelContract(s, now, user, cid).store, cid)
  {
    if Reachable(s) && CancelContract(s, now, user, cid).result.Ok? {
      ReachableInv(s);
      CancelContractKeeps(s, now, user, cid);
      assert ContractOk(s, cid);
      SoundContract(CancelContract(s, now, user, cid).store, cid);
    }
  }
}
