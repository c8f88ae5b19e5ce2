/**
 * The owner's request card: grouping the snapshots, deriving the lifecycle stage, listing the actions,
 * and what the resulting capabilities say about the calls of the request service.
 */
module WorkspaceCards {
  import opened Common
  import opened Marketplace
  import opened MarketplaceRuns

  datatype OfferRow = OfferRow(id: Id, offer: Offer)
  datatype ContractRow = ContractRow(id: Id, contract: Contract)
  datatype BookingState = BookingConfirmed | BookingCancelled | BookingCompleted

  datatype Stage =
    | AtDraft | AtPublished | AtOffersReceived | AtContractPending
    | AtInProgress | AtCompletionPending | AtCompleted | AtReviewed

  datatype Action =
    | PublishRequest | UnpublishRequest | EditRequest | ReviewResponses | OpenContract | OpenChat
    | ReportIssue | ReviewProvider | OpenDetails | DuplicateRequest | ShareRequest | ArchiveRequest | DeleteRequest

  datatype Capabilities = Capabilities(
    canEdit: bool, canDelete: bool, canDuplicate: bool, canRestore: bool,
    canReviewOffers: bool, canPublish: bool, canUnpublish: bool)

  // ---- Grouping the snapshots ----

  function RowsOf(rows: seq<OfferRow>, rid: Id): seq<OfferRow> {
    if rows == [] then []
    else
      var last := rows[|rows| - 1];
      RowsOf(rows[..|rows| - 1], rid) + (if last.offer.requestId == rid then [last] else [])
  }

  /** The offers of each request, in query order. */
  method GroupOffers(rows: seq<OfferRow>) returns (groups: map<Id, seq<OfferRow>>)
    ensures forall rid :: rid in groups ==> groups[rid] == RowsOf(rows, rid)
    ensures forall rid :: rid !in groups ==> RowsOf(rows, rid) == []
  {
    groups := map[];
    for i := 0 to |rows|
      invariant forall rid :: rid in groups ==> groups[rid] == RowsOf(rows[..i], rid)
      invariant forall rid :: rid !in groups ==> RowsOf(rows[..i], rid) == []
    {
      var rid := rows[i].offer.requestId;
      var current := if rid in groups then groups[rid] else [];
      assert rows[..i + 1][..i] == rows[..i];
      groups := groups[rid := current + [rows[i]]];
    }
    assert rows[..|rows|] == rows;
  }

  /** The row at `k` is the latest of its request: nothing is newer, and of equally new rows it is the last. */
  ghost predicate LatestAt(rows: seq<ContractRow>, k: nat) {
    k < |rows| && forall j | 0 <= j < |rows| && rows[j].contract.requestId == rows[k].contract.requestId ::
      rows[j].contract.updatedAt <= rows[k].contract.updatedAt
      && (j > k ==> rows[j].contract.updatedAt < rows[k].contract.updatedAt)
  }

  method PickLatestByRequest(rows: seq<ContractRow>) returns (latest: map<Id, ContractRow>)
    ensures forall rid :: rid in latest <==> exists k :: 0 <= k < |rows| && rows[k].contract.requestId == rid
    ensures forall rid | rid in latest ::
      exists k: nat :: LatestAt(rows, k) && rows[k] == latest[rid] && rows[k].contract.requestId == rid
  {
    latest := map[];
    ghost var at: map<Id, nat> := map[];
    for i := 0 to |rows|
      invariant forall rid :: rid in latest <==> rid in at
      invariant forall k | 0 <= k < i :: rows[k].contract.requestId in at
      invariant forall rid | rid in at ::
        at[rid] < i && LatestAt(rows[..i], at[rid]) && rows[at[rid]] == latest[rid]
        && rows[at[rid]].contract.requestId == rid
    {
      var rid := rows[i].contract.requestId;
      if rid !in latest || rows[i].contract.updatedAt >= latest[rid].contract.updatedAt {
        latest := latest[rid := rows[i]];
        at := at[rid := i];
      }
    }
    assert rows[..|rows|] == rows;
  }

  // ---- The card ----

  predicate SomeAccepted(offers: seq<OfferRow>) {
    exists o | o in offers :: o.offer.status == Accepted
  }

  predicate SomeOfContract(offers: seq<OfferRow>, contract: Option<ContractRow>) {
    contract.Some? && exists o | o in offers :: o.id == contract.value.contract.offerId
  }

  /** An offer counts as selected when it is accepted or the contract names it. */
  predicate HasSelectedOffer(offers: seq<OfferRow>, contract: Option<ContractRow>) {
    SomeAccepted(offers) || SomeOfContract(offers, contract)
  }

  function LifecycleStage(request: Request, offers: seq<OfferRow>, contract: Option<ContractRow>,
                          booking: Option<BookingState>, reviewed: bool): Stage
  {
    var status := if contract.Some? then Some(contract.value.contract.status) else None;
    if status == Some(Completed) && reviewed then AtReviewed
    else if status == Some(Completed) || request.status == Closed then AtCompleted
    else if booking == Some(BookingCompleted) then AtCompletionPending
    else if status == Some(Pending) || (HasSelectedOffer(offers, contract) && contract.None?) then AtContractPending
    else if contract.Some? then AtInProgress
    else if offers != [] then AtOffersReceived
    else if request.status == Published then AtPublished
    else AtDraft
  }

  function LifecycleActions(stage: Stage, contract: bool, chat: bool): seq<Action> {
    match stage
    case AtDraft => [PublishRequest, EditRequest]
    case AtPublished => [UnpublishRequest, EditRequest]
    case AtOffersReceived => [ReviewResponses, EditRequest]
    case AtContractPending => (if contract then [OpenContract] else []) + (if chat then [OpenChat] else [])
    case AtInProgress => (if contract then [OpenContract] else []) + (if chat then [OpenChat] else [])
    case AtCompletionPending => (if contract then [OpenContract] else []) + (if chat then [ReportIssue] else [])
    case _ => [ReviewProvider]
  }

  function TrailingActions(stage: Stage): seq<Action> {
    (if stage == AtReviewed then [DuplicateRequest, OpenDetails] else [OpenDetails, DuplicateRequest])
    + [ShareRequest, ArchiveRequest, DeleteRequest]
  }

  function StatusActions(offers: seq<OfferRow>, contract: Option<ContractRow>, stage: Stage): seq<Action> {
    LifecycleActions(stage, contract.Some?, contract.Some? || HasSelectedOffer(offers, contract))
    + TrailingActions(stage)
  }

  function CapabilitiesOf(actions: seq<Action>, request: Request): Capabilities {
    var publish := PublishRequest in actions;
    Capabilities(EditRequest in actions, DeleteRequest in actions, DuplicateRequest in actions,
                 publish && (request.status == Paused || request.status == RequestStatus.Cancelled),
                 ReviewResponses in actions, publish, UnpublishRequest in actions)
  }

  function CardCapabilities(request: Request, offers: seq<OfferRow>, contract: Option<ContractRow>,
                            booking: Option<BookingState>, reviewed: bool): Capabilities
  {
    var stage := LifecycleStage(request, offers, contract, booking, reviewed);
    CapabilitiesOf(StatusActions(offers, contract, stage), request)
  }

  lemma LeadingActions(stage: Stage, contract: bool, chat: bool)
    ensures var lead := LifecycleActions(stage, contract, chat);
      && (PublishRequest in lead <==> stage == AtDraft)
      && (UnpublishRequest in lead <==> stage == AtPublished)
      && (ReviewResponses in lead <==> stage == AtOffersReceived)
      && (EditRequest in lead <==> stage == AtDraft || stage == AtPublished || stage == AtOffersReceived)
  {
    var lead := LifecycleActions(stage, contract, chat);
    match stage
    case AtDraft => assert lead[0] == PublishRequest && lead[1] == EditRequest;
    case AtPublished => assert lead[0] == UnpublishRequest && lead[1] == EditRequest;
    case AtOffersReceived => assert lead[0] == ReviewResponses && lead[1] == EditRequest;
    case _ =>
  }

  lemma TrailingActionsPlain(stage: Stage, a: Action)
    requires a == PublishRequest || a == UnpublishRequest || a == ReviewResponses || a == EditRequest
    ensures a !in TrailingActions(stage)
  {
  }

  /** The four lifecycle capabilities are set by the stage alone. */
  lemma CapabilitiesByStage(request: Request, offers: seq<OfferRow>, contract: Option<ContractRow>, stage: Stage)
    ensures var caps := CapabilitiesOf(StatusActions(offers, contract, stage), request);
      && (caps.canPublish <==> stage == AtDraft)
      && (caps.canUnpublish <==> stage == AtPublished)
      && (caps.canReviewOffers <==> stage == AtOffersReceived)
      && (caps.canEdit <==> stage == AtDraft || stage == AtPublished || stage == AtOffersReceived)
  {
    LeadingActions(stage, contract.Some?, contract.Some? || HasSelectedOffer(offers, contract));
    TrailingActionsPlain(stage, PublishRequest);
    TrailingActionsPlain(stage, UnpublishRequest);
    TrailingActionsPlain(stage, ReviewResponses);
    TrailingActionsPlain(stage, EditRequest);
  }

  // ---- The snapshots of a store ----

  /** The rows of the two client queries, in any order. */
  ghost predicate QueriedOffers(s: Store, uid: string, rows: seq<OfferRow>) {
    forall row :: row in rows <==> row.id in s.offers && s.offers[row.id] == row.offer && row.offer.clientId == uid
  }

  ghost predicate QueriedContracts(s: Store, uid: string, rows: seq<ContractRow>) {
    forall row :: row in rows <==>
      row.id in s.contracts && s.contracts[row.id] == row.contract && row.contract.clientId == uid
  }

  /** What the card of a request is built from: its offers, and one of its contracts if there is any. */
  ghost predicate Snapshot(s: Store, uid: string, rid: Id, offers: seq<OfferRow>, contract: Option<ContractRow>) {
    && (forall row :: row in offers <==>
          row.id in s.offers && s.offers[row.id] == row.offer && row.offer.clientId == uid
            && row.offer.requestId == rid)
    && (contract.None? ==> forall c | c in s.contracts && s.contracts[c].clientId == uid ::
       s.contracts[c].requestId != rid)
    && (contract.Some? ==>
          && contract.value.id in s.contracts && s.contracts[contract.value.id] == contract.value.contract
          && contract.value.contract.clientId == uid && contract.value.contract.requestId == rid)
  }

  lemma {:induction false} RowsOfMembers(rows: seq<OfferRow>, rid: Id, row: OfferRow)
    ensures row in RowsOf(rows, rid) <==> row in rows && row.offer.requestId == rid
  {
    if rows != [] {
      RowsOfMembers(rows[..|rows| - 1], rid, row);
      assert rows == rows[..|rows| - 1] + [rows[|rows| - 1]];
    }
  }

  lemma GroupsGiveOffers(s: Store, uid: string, rid: Id, offerRows: seq<OfferRow>)
    requires QueriedOffers(s, uid, offerRows)
    ensures forall row :: row in RowsOf(offerRows, rid) <==>
      row.id in s.offers && s.offers[row.id] == row.offer && row.offer.clientId == uid && row.offer.requestId == rid
  {
    forall row ensures row in RowsOf(offerRows, rid) <==> row in offerRows && row.offer.requestId == rid {
      RowsOfMembers(offerRows, rid, row);
    }
  }

  /** What PickLatestByRequest answers for one request. */
  ghost predicate Picked(rows: seq<ContractRow>, rid: Id, contract: Option<ContractRow>) {
    && (contract.None? ==> forall k | 0 <= k < |rows| :: rows[k].contract.requestId != rid)
    && (contract.Some? ==> contract.value in rows && contract.value.contract.requestId == rid)
  }

  lemma PickGivesContract(s: Store, uid: string, rid: Id, rows: seq<ContractRow>, contract: Option<ContractRow>)
    requires QueriedContracts(s, uid, rows) && Picked(rows, rid, contract)
    ensures contract.None? ==> forall c | c in s.contracts && s.contracts[c].clientId == uid ::
      s.contracts[c].requestId != rid
    ensures contract.Some? ==>
      && contract.value.id in s.contracts && s.contracts[contract.value.id] == contract.value.contract
      && contract.value.contract.clientId == uid && contract.value.contract.requestId == rid
  {
    if contract.None? {
      forall c | c in s.contracts && s.contracts[c].clientId == uid
        ensures s.contracts[c].requestId != rid
      {
        assert ContractRow(c, s.contracts[c]) in rows;
      }
    }
  }

  /** The two loops deliver a snapshot of every request, with its newest contract. */
  method LoadSnapshot(ghost s: Store, uid: string, rid: Id, offerRows: seq<OfferRow>, contractRows: seq<ContractRow>)
    returns (offers: seq<OfferRow>, contract: Option<ContractRow>)
    requires QueriedOffers(s, uid, offerRows) && QueriedContracts(s, uid, contractRows)
    ensures Snapshot(s, uid, rid, offers, contract)
    ensures contract.Some? ==> exists k: nat :: LatestAt(contractRows, k) && contractRows[k] == contract.value
  {
    var groups := GroupOffers(offerRows);
    var latest := PickLatestByRequest(contractRows);
    offers := if rid in groups then groups[rid] else [];
    contract := if rid in latest then Some(latest[rid]) else None;
    GroupsGiveOffers(s, uid, rid, offerRows);
    PickGivesContract(s, uid, rid, contractRows, contract);
  }

  // ---- Capability soundness ----

  ghost predicate HasContractOn(s: Store, rid: Id) {
    exists c | c in s.contracts :: s.contracts[c].requestId == rid
  }

  /** In a reachable store a snapshot misses neither an offer nor the existence of a contract. */
  lemma SnapshotComplete(s: Store, uid: string, rid: Id, offers: seq<OfferRow>, contract: Option<ContractRow>)
    requires Inv(s) && Owned(s, uid, rid) && Snapshot(s, uid, rid, offers, contract)
    ensures offers != [] <==> HasOffers(s.offers, rid)
    ensures contract.Some? <==> HasContractOn(s, rid)
    ensures HasContractOn(s, rid) <==> SomeAccepted(offers)
    ensures Settled(s.requests[rid].status) ==> contract.Some?
  {
    forall o | o in s.offers && s.offers[o].requestId == rid
      ensures OfferRow(o, s.offers[o]) in offers
    {
      assert OfferOk(s, o);
    }
    if offers != [] { assert offers[0] in offers; }
    forall c | c in s.contracts && s.contracts[c].requestId == rid
      ensures s.contracts[c].clientId == uid
        && OfferRow(s.contracts[c].offerId, s.offers[s.contracts[c].offerId]) in offers
      ensures s.offers[s.contracts[c].offerId].status == Accepted
    {
      assert ContractOk(s, c) && OfferOk(s, s.contracts[c].offerId);
    }
    if o :| o in offers && o.offer.status == Accepted {
      assert HasContract(s, o.id);
      var c :| c in s.contracts && s.contracts[c].offerId == o.id;
      assert ContractOk(s, c);
    }
    assert RequestOk(s, rid);
  }

  lemma StageByRows(request: Request, offers: seq<OfferRow>, contract: Option<ContractRow>,
                    booking: Option<BookingState>, reviewed: bool)
    requires contract.None? ==> booking.None? && !Settled(request.status) && !HasSelectedOffer(offers, contract)
    ensures var stage := LifecycleStage(request, offers, contract, booking, reviewed);
      && (stage == AtDraft <==> contract.None? && offers == [] && request.status != Published)
      && (stage == AtPublished <==> contract.None? && offers == [] && request.status == Published)
      && (stage == AtOffersReceived <==> contract.None? && offers != [])
  {
  }

  /** The early stages of a reachable store, in terms of the store. */
  lemma StageExact(s: Store, uid: string, rid: Id, offers: seq<OfferRow>, contract: Option<ContractRow>,
                   booking: Option<BookingState>, reviewed: bool)
    requires Inv(s) && Owned(s, uid, rid)
    requires Snapshot(s, uid, rid, offers, contract) && (contract.None? ==> booking.None?)
    ensures var stage := LifecycleStage(s.requests[rid], offers, contract, booking, reviewed);
      && (stage == AtDraft <==>
            !HasContractOn(s, rid) && !HasOffers(s.offers, rid) && Publishable(s.requests[rid].status))
      && (stage == AtPublished <==>
            !HasContractOn(s, rid) && !HasOffers(s.offers, rid) && s.requests[rid].status == Published)
      && (stage == AtOffersReceived <==> !HasContractOn(s, rid) && HasOffers(s.offers, rid))
  {
    SnapshotComplete(s, uid, rid, offers, contract);
    StageByRows(s.requests[rid], offers, contract, booking, reviewed);
  }

  lemma ContractNeedsOffer(s: Store, rid: Id)
    requires Inv(s) && HasContractOn(s, rid)
    ensures HasOffers(s.offers, rid)
  {
    var c :| c in s.contracts && s.contracts[c].requestId == rid;
    assert ContractOk(s, c);
  }

  /**
   * What the card offers the owner of a request that is not archived is exactly what the services accept:
   * publish on a publishable request without offers, unpublish exactly when it succeeds, edit when the
   * edit guard passes and no contract was ever made.
   */
  lemma CapabilitiesExact(s: Store, uid: string, rid: Id, offers: seq<OfferRow>, contract: Option<ContractRow>,
                          booking: Option<BookingState>, reviewed: bool)
    requires Inv(s) && Owned(s, uid, rid) && s.requests[rid].archivedAt.None?
    requires Snapshot(s, uid, rid, offers, contract) && (contract.None? ==> booking.None?)
    ensures var caps := CardCapabilities(s.requests[rid], offers, contract, booking, reviewed);
      && (caps.canPublish <==> Publish(s, uid, rid).result.Ok? && !HasOffers(s.offers, rid))
      && (caps.canUnpublish <==> Unpublish(s, uid, rid).result.Ok?)
      && (caps.canEdit <==> UpdateGuard(s, uid, rid).Ok? && !HasContractOn(s, rid))
      && (caps.canReviewOffers <==> HasOffers(s.offers, rid) && !HasContractOn(s, rid))
      && (caps.canRestore ==> caps.canPublish)
  {
    StageExact(s, uid, rid, offers, contract, booking, reviewed);
    if HasContractOn(s, rid) { ContractNeedsOffer(s, rid); }
    assert Settled(s.requests[rid].status) ==> HasContractOn(s, rid) by {
      SnapshotComplete(s, uid, rid, offers, contract);
    }
    CapabilitiesByStage(s.requests[rid], offers, contract,
                        LifecycleStage(s.requests[rid], offers, contract, booking, reviewed));
  }

  /** The same over runs: after any run, publish, unpublish and edit are only offered when they would pass. */
  lemma ReachableCapabilitiesSound(steps: seq<Step>, uid: string, rid: Id, offers: seq<OfferRow>,
                                   contract: Option<ContractRow>, booking: Option<BookingState>, reviewed: bool)
    requires var s := Run(EMPTY, steps);
      Owned(s, uid, rid) && s.requests[rid].archivedAt.None?
      && Snapshot(s, uid, rid, offers, contract) && (contract.None? ==> booking.None?)
    ensures var s := Run(EMPTY, steps);
      var caps := CardCapabilities(s.requests[rid], offers, contract, booking, reviewed);
      && (caps.canPublish ==> Publish(s, uid, rid).result == Ok(()))
      && (caps.canEdit ==> UpdateGuard(s, uid, rid) == Ok(()))
      && (caps.canUnpublish <==> Unpublish(s, uid, rid).result == Ok(()))
  {
    RunKeepsInv(EMPTY, steps);
    CapabilitiesExact(Run(EMPTY, steps), uid, rid, offers, contract, booking, reviewed);
  }

  // ---- The later stages, and every action ----

  /**
   * The stage of a request with a contract, whatever rows came with it. A cancelled contract counts as running
   * until a newer one takes its place.
   */
  lemma StageWithContract(request: Request, offers: seq<OfferRow>, row: ContractRow, booking: Option<BookingState>,
                          reviewed: bool)
    ensures var status, closed := row.contract.status, request.status == Closed;
      var served := booking == Some(BookingCompleted);
      LifecycleStage(request, offers, Some(row), booking, reviewed) ==
        if status == Completed then (if reviewed then AtReviewed else AtCompleted)
        else if closed then AtCompleted
        else if served then AtCompletionPending
        else if status == Pending then AtContractPending
        else AtInProgress
  {
  }

  /** The stage of a request without a contract; an accepted offer already counts as one to come. */
  lemma StageWithoutContract(request: Request, offers: seq<OfferRow>, booking: Option<BookingState>, reviewed: bool)
    ensures LifecycleStage(request, offers, None, booking, reviewed) ==
      if request.status == Closed then AtCompleted
      else if booking == Some(BookingCompleted) then AtCompletionPending
      else if exists o | o in offers :: o.offer.status == Accepted then AtContractPending
      else if offers != [] then AtOffersReceived
      else if request.status == Published then AtPublished
      else AtDraft
  {
  }

  /** Which actions the card lists. */
  lemma ActionsExact(offers: seq<OfferRow>, contract: Option<ContractRow>, stage: Stage)
    ensures var actions := StatusActions(offers, contract, stage);
      var chat := contract.Some? || exists o | o in offers :: o.offer.status == Accepted;
      && (OpenContract in actions <==>
            contract.Some? && stage in {AtContractPending, AtInProgress, AtCompletionPending})
      && (OpenChat in actions <==> chat && stage in {AtContractPending, AtInProgress})
      && (ReportIssue in actions <==> chat && stage == AtCompletionPending)
      && (ReviewProvider in actions <==> stage in {AtCompleted, AtReviewed})
      && (forall a | a in {OpenDetails, DuplicateRequest, ShareRequest, ArchiveRequest, DeleteRequest} :: a in actions)
  {
    var chat := contract.Some? || HasSelectedOffer(offers, contract);
    LaterActions(stage, contract.Some?, chat);
    AlwaysLast(stage);
  }

  lemma LaterActions(stage: Stage, contract: bool, chat: bool)
    ensures var lead := LifecycleActions(stage, contract, chat);
      && (OpenContract in lead <==> contract && stage in {AtContractPending, AtInProgress, AtCompletionPending})
      && (OpenChat in lead <==> chat && stage in {AtContractPending, AtInProgress})
      && (ReportIssue in lead <==> chat && stage == AtCompletionPending)
      && (ReviewProvider in lead <==> stage in {AtCompleted, AtReviewed})
  {
  }

  lemma AlwaysLast(stage: Stage)
    ensures var last := TrailingActions(stage);
      && |last| == 5 && last[2..] == [ShareRequest, ArchiveRequest, DeleteRequest]
      && (if stage == AtReviewed then last[..2] == [DuplicateRequest, OpenDetails]
          else last[..2] == [OpenDetails, DuplicateRequest])
      && forall a :: a in last <==> a in {OpenDetails, DuplicateRequest, ShareRequest, ArchiveRequest, DeleteRequest}
  {
    var last := TrailingActions(stage);
    assert last[0] in last && last[1] in last && last[2] in last && last[3] in last && last[4] in last;
  }

  /**
   * What the owner may do with any card: duplicate always succeeds, restore is publish for a paused or cancelled
   * request, and delete is always offered although it is refused for a matched or closed request.
   */
  lemma OwnerCapabilities(s: Store, uid: string, rid: Id, offers: seq<OfferRow>, contract: Option<ContractRow>,
                          booking: Option<BookingState>, reviewed: bool, now: int, watched: bool)
    requires Inv(s) && rid in s.requests && s.requests[rid].clientId == Some(uid)
    requires Snapshot(s, uid, rid, offers, contract) && (contract.None? ==> booking.None?)
    ensures var caps := CardCapabilities(s.requests[rid], offers, contract, booking, reviewed);
      && caps.canDuplicate && Duplicate(s, uid, rid).result.Ok?
      && caps.canDelete
      && (Delete(s, now, uid, rid, watched).result.Ok? <==> s.requests[rid].status !in {Matched, Closed})
      && (caps.canRestore <==> caps.canPublish && s.requests[rid].status in {Paused, RequestStatus.Cancelled})
  {
    ActionsExact(offers, contract, LifecycleStage(s.requests[rid], offers, contract, booking, reviewed));
  }

  /**
   * After a contract is cancelled, and until another is made, the owner's card shows the request as running: it
   * is on the market again, but the card offers neither to look at new offers nor to unpublish or edit.
   */
  lemma CancelledShowsRunning(s: Store, uid: string, rid: Id, offers: seq<OfferRow>, contract: Option<ContractRow>,
                              booking: Option<BookingState>, reviewed: bool)
    requires Inv(s) && rid in s.requests && s.requests[rid].clientId == Some(uid)
    requires Snapshot(s, uid, rid, offers, contract) && booking != Some(BookingCompleted)
    requires s.requests[rid].assignedContract.None? && HasContractOn(s, rid)
    ensures LifecycleStage(s.requests[rid], offers, contract, booking, reviewed) == AtInProgress
    ensures var caps := CardCapabilities(s.requests[rid], offers, contract, booking, reviewed);
      !caps.canReviewOffers && !caps.canUnpublish && !caps.canPublish && !caps.canEdit
  {
    SnapshotComplete(s, uid, rid, offers, contract);
    assert ContractOk(s, contract.value.id) && RequestOk(s, rid);
    StageWithContract(s.requests[rid], offers, contract.value, booking, reviewed);
    CapabilitiesByStage(s.requests[rid], offers, contract, AtInProgress);
  }
}
