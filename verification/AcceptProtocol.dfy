/**
 * acceptForClient at the granularity of its database operations: any number of calls, one operation a
 * turn, in any order. The compare-and-set on the request is the only lock.
 */
module AcceptProtocol {
  import opened Common
  import opened Marketplace
  import opened MarketplaceRuns

  type CallId = nat

  datatype Phase =
    | ReadOffer
    | ReadRequest
    | TryLock
    | WriteOffer
    | FindContract
    | WriteContract
    | RefetchContract
    | AssignContract
    | DeclineRest
    | Finished(result: Result<()>)

  /** A running call: its arguments, where it stands, and its local variables. */
  datatype Call = Call(
    clientId: string, offerId: Id, phase: Phase, offer: Option<Offer>, contract: Option<Id>, won: bool)

  datatype State = State(store: Store, calls: map<CallId, Call>)

  datatype Turn = Turn(call: CallId, now: int)

  function Start(clientId: string, offerId: Id): Call {
    Call(clientId, offerId, ReadOffer, None, None, false)
  }

  /** One database operation of one call, with the local work up to the next one. */
  function Advance(s: Store, k: Call, now: int): (Store, Call) {
    var fail := (e: Error) => (s, k.(phase := Finished(Err(e))));
    match k.phase
    case Finished(_) => (s, k)
    case ReadOffer =>
      if k.offerId !in s.offers then fail(NotFound)
      else (s, k.(phase := ReadRequest, offer := Some(s.offers[k.offerId])))
    case ReadRequest =>
      if k.offer.None? || k.offer.value.requestId !in s.requests then fail(NotFound)
      else if s.requests[k.offer.value.requestId].clientId != Some(k.clientId) then fail(Forbidden)
      else (match k.offer.value.status
        case Accepted => (s, k.(phase := Finished(Ok(()))))
        case Declined => fail(BadRequest)
        case Withdrawn => fail(BadRequest)
        case Sent => (s, k.(phase := TryLock)))
    case TryLock =>
      if k.offer.Some? && k.offer.value.requestId in s.requests
         && Lockable(s.requests[k.offer.value.requestId], k.clientId)
      then (Lock(s, k.offer.value.requestId, k.offer.value.providerId), k.(phase := WriteOffer, won := true))
      else fail(BadRequest)
    case WriteOffer => (SetOffer(s, k.offerId, Accepted), k.(phase := FindContract))
    case FindContract =>
      var found := ContractOf(s, k.offerId, 0);
      (s, k.(phase := if found.Some? then AssignContract else WriteContract, contract := found))
    case WriteContract =>
      if ContractOf(s, k.offerId, 0).Some? || k.offer.None? then (s, k.(phase := RefetchContract))
      else (InsertContract(s, NewContract(k.offer.value, k.offerId, k.clientId, now)),
            k.(phase := AssignContract, contract := Some(s.nextId)))
    case RefetchContract => (s, k.(phase := AssignContract, contract := ContractOf(s, k.offerId, 0)))
    case AssignContract =>
      (if k.contract.Some? && k.offer.Some? then Assign(s, k.offer.value.requestId, k.contract.value) else s,
       k.(phase := DeclineRest))
    case DeclineRest =>
      (if k.offer.Some? then DeclineOthers(s, k.offer.value.requestId, k.offerId) else s,
       k.(phase := Finished(Ok(()))))
  }

  function Take(s: State, turn: Turn): State {
    if turn.call !in s.calls then s
    else
      var (store, call) := Advance(s.store, s.calls[turn.call], turn.now);
      State(store, s.calls[turn.call := call])
  }

  function Play(s: State, turns: seq<Turn>): State
    decreases |turns|
  {
    if turns == [] then s else Play(Take(s, turns[0]), turns[1..])
  }

  // ---- One call alone is the atomic call ----

  function Solo(s: Store, k: Call, now: int, n: nat): (Store, Call)
    decreases n
  {
    if n == 0 then (s, k) else var (s', k') := Advance(s, k, now); Solo(s', k', now, n - 1)
  }

  lemma {:induction false} SoloFinished(s: Store, k: Call, now: int, n: nat)
    requires k.phase.Finished?
    ensures Solo(s, k, now, n) == (s, k)
    decreases n
  {
    if n > 0 { SoloFinished(s, k, now, n - 1); }
  }

  /** Two operations in a row. */
  lemma SoloTwo(s: Store, k: Call, now: int, n: nat, s1: Store, k1: Call)
    requires n >= 2 && Advance(s, k, now) == (s1, k1)
    ensures Solo(s, k, now, n) == Solo(Advance(s1, k1, now).0, Advance(s1, k1, now).1, now, n - 2)
  {
    assert Solo(s, k, now, n) == Solo(s1, k1, now, n - 1);
  }

  /** The last three operations, once the contract is known. */
  lemma SoloTail(s: Store, k: Call, now: int, n: nat)
    requires k.phase == AssignContract && k.offer.Some? && k.contract.Some? && n >= 2
    ensures Solo(s, k, now, n) == (
      DeclineOthers(Assign(s, k.offer.value.requestId, k.contract.value), k.offer.value.requestId, k.offerId),
      k.(phase := Finished(Ok(()))))
  {
    var (s1, k1) := Advance(s, k, now);
    var (s2, k2) := Advance(s1, k1, now);
    SoloTwo(s, k, now, n, s1, k1);
    SoloFinished(s2, k2, now, n - 2);
  }

  /** From the lock on, the remaining operations compute FinishAccept. */
  lemma SoloAfterLock(s: Store, k: Call, now: int, n: nat)
    requires k.phase == WriteOffer && k.offer.Some? && k.offerId in s.offers && n >= 5
    ensures Solo(s, k, now, n).0 == FinishAccept(s, now, k.clientId, k.offerId, k.offer.value)
    ensures Solo(s, k, now, n).1.phase == Finished(Ok(()))
  {
    var (s1, k1) := Advance(s, k, now);
    var (s2, k2) := Advance(s1, k1, now);
    SoloTwo(s, k, now, n, s1, k1);
    if k2.phase == AssignContract {
      SoloTail(s2, k2, now, n - 2);
    } else {
      var (s3, k3) := Advance(s2, k2, now);
      assert Solo(s2, k2, now, n - 2) == Solo(s3, k3, now, n - 3);
      SoloTail(s3, k3, now, n - 3);
    }
  }

  /** A call whose operations run without interference does exactly what the atomic call does. */
  lemma SoloIsAccept(s: Store, clientId: string, offerId: Id, now: int, n: nat)
    requires n >= 8
    ensures var (t, k) := Solo(s, Start(clientId, offerId), now, n);
      var atomic := Accept(s, now, clientId, offerId);
      t == atomic.store && k.phase == Finished(atomic.result)
  {
    var k := Start(clientId, offerId);
    var (s1, k1) := Advance(s, k, now);
    var (s2, k2) := Advance(s1, k1, now);
    var (s3, k3) := Advance(s2, k2, now);
    SoloTwo(s, k, now, n, s1, k1);
    assert Solo(s2, k2, now, n - 2) == Solo(s3, k3, now, n - 3);
    if k3.phase.Finished? {
      SoloFinished(s3, k3, now, n - 3);
    } else {
      SoloAfterLock(s3, k3, now, n - 3);
    }
  }

  // ---- Any interleaving: what one request sees ----

  predicate Writing(p: Phase) {
    p == WriteOffer || p == FindContract || p == WriteContract || p == RefetchContract
    || p == AssignContract || p == DeclineRest
  }

  ghost predicate On(k: Call, rid: Id) { k.offer.Some? && k.offer.value.requestId == rid }

  ghost predicate SameOffer(x: Offer, y: Offer) { x == y.(status := x.status) }

  ghost predicate KnownOffers(s0: Store, s: Store) {
    && (forall o :: o in s.offers <==> o in s0.offers)
    && (forall o | o in s0.offers :: SameOffer(s0.offers[o], s.offers[o]))
  }

  ghost predicate KnownRequests(s0: Store, s: Store) {
    && (forall r :: r in s.requests <==> r in s0.requests)
    && (forall r | r in s0.requests :: s.requests[r].clientId == s0.requests[r].clientId)
  }

  ghost predicate ContractOfItsOffer(s: Store, c: Id)
    requires c in s.contracts
  {
    c < s.nextId && s.contracts[c].offerId in s.offers
    && s.offers[s.contracts[c].offerId].requestId == s.contracts[c].requestId
  }

  /** What every turn keeps of the starting store: the documents and everything but their states. */
  ghost predicate Background(s0: Store, s: Store) {
    && KnownOffers(s0, s) && KnownRequests(s0, s) && s0.nextId <= s.nextId
    && (forall c | c in s.contracts :: ContractOfItsOffer(s, c))
  }

  ghost predicate CallOk(s0: Store, k: Call) {
    && (k.offer.Some? ==> k.offerId in s0.offers && SameOffer(s0.offers[k.offerId], k.offer.value))
    && (k.phase == ReadRequest ==> k.offer.Some?)
    && (k.phase == TryLock || k.won ==>
          && k.offer.Some? && k.offer.value.status == Sent && k.offer.value.requestId in s0.requests
          && s0.requests[k.offer.value.requestId].clientId == Some(k.clientId))
    && (Writing(k.phase) ==> k.won)
    && (k.won ==> Writing(k.phase) || k.phase == Finished(Ok(())))
  }

  lemma SetOfferKeepsBackground(s0: Store, s: Store, oid: Id)
    requires Background(s0, s)
    ensures Background(s0, SetOffer(s, oid, Accepted))
  {
    var t := SetOffer(s, oid, Accepted);
    forall c | c in t.contracts ensures ContractOfItsOffer(t, c) { assert ContractOfItsOffer(s, c); }
  }

  lemma DeclineOthersKeepsBackground(s0: Store, s: Store, rid: Id, oid: Id)
    requires Background(s0, s)
    ensures Background(s0, DeclineOthers(s, rid, oid))
  {
    var t := DeclineOthers(s, rid, oid);
    forall c | c in t.contracts ensures ContractOfItsOffer(t, c) { assert ContractOfItsOffer(s, c); }
  }

  lemma InsertContractKeepsBackground(s0: Store, s: Store, c: Contract)
    requires Background(s0, s) && c.offerId in s.offers && s.offers[c.offerId].requestId == c.requestId
    ensures Background(s0, InsertContract(s, c))
  {
    var t := InsertContract(s, c);
    forall d | d in t.contracts ensures ContractOfItsOffer(t, d) {
      if d in s.contracts { assert ContractOfItsOffer(s, d); }
    }
  }

  lemma RequestWriteKeepsBackground(s0: Store, s: Store, rid: Id, r: Request)
    requires Background(s0, s) && rid in s.requests && r.clientId == s.requests[rid].clientId
    ensures Background(s0, s.(requests := s.requests[rid := r]))
  {
    var t := s.(requests := s.requests[rid := r]);
    forall c | c in t.contracts ensures ContractOfItsOffer(t, c) { assert ContractOfItsOffer(s, c); }
  }

  lemma AdvanceKeepsCall(s0: Store, s: Store, k: Call, now: int)
    requires KnownOffers(s0, s) && KnownRequests(s0, s) && CallOk(s0, k)
    ensures CallOk(s0, Advance(s, k, now).1)
  {
    match k.phase
    case ReadOffer => if k.offerId in s.offers { assert SameOffer(s0.offers[k.offerId], s.offers[k.offerId]); }
    case ReadRequest =>
    case TryLock =>
    case _ =>
  }

  lemma AdvanceKeepsBackground(s0: Store, s: Store, k: Call, now: int)
    requires Background(s0, s) && CallOk(s0, k)
    ensures Background(s0, Advance(s, k, now).0)
  {
    var t := Advance(s, k, now).0;
    match k.phase
    case TryLock =>
      if t != s { RequestWriteKeepsBackground(s0, s, k.offer.value.requestId, t.requests[k.offer.value.requestId]); }
    case WriteOffer => SetOfferKeepsBackground(s0, s, k.offerId);
    case WriteContract =>
      if t != s { InsertContractKeepsBackground(s0, s, NewContract(k.offer.value, k.offerId, k.clientId, now)); }
    case AssignContract =>
      if t != s { RequestWriteKeepsBackground(s0, s, k.offer.value.requestId, t.requests[k.offer.value.requestId]); }
    case DeclineRest => DeclineOthersKeepsBackground(s0, s, k.offer.value.requestId, k.offerId);
    case _ =>
  }

  /** Two stores agree on a request, its offers and its contracts. */
  ghost predicate SameView(s: Store, t: Store, rid: Id)
    requires rid in s.requests
  {
    && rid in t.requests && t.requests[rid] == s.requests[rid]
    && SameOffersOf(s, t, rid) && SameContractsOf(s, t, rid)
  }

  ghost predicate SameOffersOf(s: Store, t: Store, rid: Id) {
    forall o | o in s.offers && s.offers[o].requestId == rid :: o in t.offers && t.offers[o] == s.offers[o]
  }

  ghost predicate SameContractsOf(s: Store, t: Store, rid: Id) {
    && (forall c | c in s.contracts && s.contracts[c].requestId == rid ::
          c in t.contracts && t.contracts[c] == s.contracts[c])
    && (forall c | c in t.contracts && t.contracts[c].requestId == rid ::
          c in s.contracts && s.contracts[c] == t.contracts[c])
  }

  lemma FreshContract(s: Store)
    requires forall d | d in s.contracts :: ContractOfItsOffer(s, d)
    ensures s.nextId !in s.contracts
  {
  }

  lemma SetOfferElsewhere(s: Store, oid: Id, status: OfferStatus, rid: Id)
    requires rid in s.requests && (oid in s.offers ==> s.offers[oid].requestId != rid)
    ensures SameView(s, SetOffer(s, oid, status), rid)
  {
  }

  lemma RequestWriteElsewhere(s: Store, q: Id, r: Request, rid: Id)
    requires rid in s.requests && q != rid
    ensures SameView(s, s.(requests := s.requests[q := r]), rid)
  {
  }

  lemma InsertContractElsewhere(s: Store, c: Contract, rid: Id)
    requires rid in s.requests && c.requestId != rid && forall d | d in s.contracts :: ContractOfItsOffer(s, d)
    ensures SameView(s, InsertContract(s, c), rid)
  {
    FreshContract(s);
  }

  lemma DeclineOthersElsewhere(s: Store, q: Id, oid: Id, rid: Id)
    requires rid in s.requests && q != rid
    ensures SameView(s, DeclineOthers(s, q, oid), rid)
  {
  }

  /** A call that works on another request is not seen. */
  lemma AdvanceElsewhere(s0: Store, s: Store, k: Call, now: int, rid: Id)
    requires Background(s0, s) && CallOk(s0, k) && rid in s0.requests && !On(k, rid)
    ensures SameView(s, Advance(s, k, now).0, rid)
  {
    var t := Advance(s, k, now).0;
    match k.phase
    case WriteOffer =>
      assert SameOffer(s0.offers[k.offerId], s.offers[k.offerId]);
      SetOfferElsewhere(s, k.offerId, Accepted, rid);
    case WriteContract =>
      if t != s { InsertContractElsewhere(s, NewContract(k.offer.value, k.offerId, k.clientId, now), rid); }
    case TryLock =>
      if t != s { RequestWriteElsewhere(s, k.offer.value.requestId, t.requests[k.offer.value.requestId], rid); }
    case AssignContract =>
      if t != s { RequestWriteElsewhere(s, k.offer.value.requestId, t.requests[k.offer.value.requestId], rid); }
    case DeclineRest => DeclineOthersElsewhere(s, k.offer.value.requestId, k.offerId, rid);
    case _ => assert t == s;
  }

  ghost predicate RequestView(s0: Store, s: Store, rid: Id, provider: Option<string>, contract: Option<Id>)
    requires rid in s0.requests
  {
    && rid in s.requests
    && s.requests[rid] ==
         if provider.None? then s0.requests[rid]
         else s0.requests[rid].(status := Paused, matchedProvider := provider, assignedContract := contract)
  }

  /** The state of one offer once `accepted` won and, if `rest` is set, the sent ones were declined. */
  ghost function OfferAfter(o: Offer, oid: Id, accepted: Option<Id>, rest: bool): Offer {
    if accepted == Some(oid) then o.(status := Accepted)
    else if rest && o.status == Sent then o.(status := Declined)
    else o
  }

  ghost predicate OffersView(s0: Store, s: Store, rid: Id, accepted: Option<Id>, rest: bool) {
    forall o | o in s0.offers && s0.offers[o].requestId == rid ::
      o in s.offers && s.offers[o] == OfferAfter(s0.offers[o], o, accepted, rest)
  }

  ghost predicate ContractsView(s0: Store, s: Store, rid: Id, added: Option<Id>) {
    && (forall c | c in s0.contracts && s0.contracts[c].requestId == rid ::
          c in s.contracts && s.contracts[c] == s0.contracts[c])
    && (forall c | c in s.contracts && s.contracts[c].requestId == rid ::
          (c in s0.contracts && s0.contracts[c] == s.contracts[c]) || added == Some(c))
  }

  ghost predicate Added(s0: Store, s: Store, k: Call)
    requires k.offer.Some?
  {
    && k.contract.Some? && k.contract.value in s.contracts && k.contract.value !in s0.contracts
    && s.contracts[k.contract.value]
         == NewContract(k.offer.value, k.offerId, k.clientId, s.contracts[k.contract.value].updatedAt)
  }

  /** What the request looks like while, and after, the winner `k` does its writes. */
  ghost predicate WinnerView(s0: Store, s: Store, rid: Id, k: Call)
    requires rid in s0.requests
  {
    var early := k.phase == WriteOffer || k.phase == FindContract || k.phase == WriteContract;
    && On(k, rid) && k.won && k.phase != RefetchContract
    && RequestView(s0, s, rid, Some(k.offer.value.providerId),
                   if early || k.phase == AssignContract then None else k.contract)
    && OffersView(s0, s, rid, if k.phase == WriteOffer then None else Some(k.offerId), k.phase.Finished?)
    && ContractsView(s0, s, rid, if early then None else k.contract)
    && (!early ==> Added(s0, s, k))
  }

  /** The request is open for acceptance and the offer of a call on it has no contract yet. */
  ghost predicate Open(s0: Store, rid: Id) {
    && rid in s0.requests && s0.requests[rid].status == Published
    && s0.requests[rid].matchedProvider.None? && s0.requests[rid].assignedContract.None?
    && (forall c | c in s0.contracts :: c < s0.nextId)
    && (forall c | c in s0.contracts && s0.contracts[c].offerId in s0.offers ::
          s0.offers[s0.contracts[c].offerId].status == Accepted)
  }

  lemma NoContractYet(s0: Store, s: Store, rid: Id, k: Call)
    requires Background(s0, s) && CallOk(s0, k) && Open(s0, rid) && On(k, rid) && k.won
    requires ContractsView(s0, s, rid, None)
    requires k.offerId in s0.offers && s0.offers[k.offerId].status == Sent
    ensures ContractOf(s, k.offerId, 0).None?
  {
    assert SameOffer(s0.offers[k.offerId], s.offers[k.offerId]);
    forall c | c in s.contracts ensures s.contracts[c].offerId != k.offerId {
      assert ContractOfItsOffer(s, c);
    }
  }

  lemma WinnerAccepts(s0: Store, s: Store, rid: Id, k: Call)
    requires Background(s0, s) && Open(s0, rid) && WinnerView(s0, s, rid, k) && k.phase == WriteOffer
      && k.offerId in s0.offers
    ensures WinnerView(s0, SetOffer(s, k.offerId, Accepted), rid, k.(phase := FindContract))
  {
    assert SameOffer(s0.offers[k.offerId], s.offers[k.offerId]);
  }

  lemma WinnerAddsContract(s0: Store, s: Store, rid: Id, k: Call, now: int)
    requires Background(s0, s) && Open(s0, rid) && WinnerView(s0, s, rid, k) && k.phase == WriteContract
    ensures WinnerView(s0, InsertContract(s, NewContract(k.offer.value, k.offerId, k.clientId, now)), rid,
                       k.(phase := AssignContract, contract := Some(s.nextId)))
  {
    FreshContract(s);
    assert s.nextId !in s0.contracts;
  }

  lemma WinnerAssigns(s0: Store, s: Store, rid: Id, k: Call)
    requires rid in s0.requests && WinnerView(s0, s, rid, k) && k.phase == AssignContract
    ensures WinnerView(s0, Assign(s, rid, k.contract.value), rid, k.(phase := DeclineRest))
  {
  }

  lemma WinnerDeclines(s0: Store, s: Store, rid: Id, k: Call)
    requires rid in s0.requests && Background(s0, s) && WinnerView(s0, s, rid, k) && k.phase == DeclineRest
    ensures WinnerView(s0, DeclineOthers(s, rid, k.offerId), rid, k.(phase := Finished(Ok(()))))
  {
    var t := DeclineOthers(s, rid, k.offerId);
    forall o | o in s0.offers && s0.offers[o].requestId == rid
      ensures o in t.offers && t.offers[o] == OfferAfter(s0.offers[o], o, Some(k.offerId), true)
    {
      assert SameOffer(s0.offers[o], s.offers[o]);
    }
  }

  lemma WinnerAdvances(s0: Store, s: Store, rid: Id, k: Call, now: int)
    requires Background(s0, s) && CallOk(s0, k) && Open(s0, rid) && WinnerView(s0, s, rid, k)
    requires k.offerId in s0.offers && s0.offers[k.offerId].status == Sent
    ensures var (s', k') := Advance(s, k, now); WinnerView(s0, s', rid, k')
  {
    match k.phase
    case WriteOffer => WinnerAccepts(s0, s, rid, k);
    case FindContract => NoContractYet(s0, s, rid, k);
    case WriteContract =>
      NoContractYet(s0, s, rid, k);
      WinnerAddsContract(s0, s, rid, k, now);
    case AssignContract => WinnerAssigns(s0, s, rid, k);
    case DeclineRest => WinnerDeclines(s0, s, rid, k);
    case _ =>
  }

  // ---- The lock ----

  ghost predicate WinnerOn(k: Call, rid: Id) { k.won && On(k, rid) }

  /** A call that would succeed if it ran alone: the owner accepts a sent offer of the request. */
  ghost predicate Eligible(s0: Store, k: Call, rid: Id) {
    && rid in s0.requests && k.offerId in s0.offers && s0.offers[k.offerId].requestId == rid
    && s0.offers[k.offerId].status == Sent && s0.requests[rid].clientId == Some(k.clientId)
  }

  predicate BeforeLock(p: Phase) { p == ReadOffer || p == ReadRequest || p == TryLock }

  /** While nobody holds the lock the request is as it was and no eligible call has been turned away. */
  ghost predicate UnlockedCall(s0: Store, k: Call, rid: Id) {
    && !WinnerOn(k, rid)
    && (On(k, rid) && k.offerId in s0.offers ==> k.offer.value == s0.offers[k.offerId])
    && (Eligible(s0, k, rid) ==> BeforeLock(k.phase))
  }

  ghost predicate Unlocked(s0: Store, s: State, rid: Id) {
    && rid in s0.requests && SameView(s0, s.store, rid)
    && (forall t | t in s.calls :: UnlockedCall(s0, s.calls[t], rid))
  }

  ghost predicate LockedBy(s0: Store, s: State, rid: Id, w: CallId) {
    && rid in s0.requests && w in s.calls && WinnerOn(s.calls[w], rid)
    && s.calls[w].offerId in s0.offers && s0.offers[s.calls[w].offerId].status == Sent
    && WinnerView(s0, s.store, rid, s.calls[w])
    && (forall t | t in s.calls && t != w :: !WinnerOn(s.calls[t], rid))
  }

  ghost predicate Consistent(s0: Store, s: State) {
    Background(s0, s.store) && forall t | t in s.calls :: CallOk(s0, s.calls[t])
  }

  lemma TakeKeepsConsistent(s0: Store, s: State, turn: Turn)
    requires Consistent(s0, s)
    ensures Consistent(s0, Take(s, turn))
  {
    if turn.call in s.calls {
      AdvanceKeepsBackground(s0, s.store, s.calls[turn.call], turn.now);
      AdvanceKeepsCall(s0, s.store, s.calls[turn.call], turn.now);
    }
  }

  /** A call that is neither past the lock of this request nor takes it leaves no trace on it. */
  lemma QuietTurn(s0: Store, s: Store, k: Call, now: int, rid: Id)
    requires Background(s0, s) && CallOk(s0, k) && rid in s0.requests && !WinnerOn(k, rid)
    requires !(On(k, rid) && k.phase == TryLock && Lockable(s.requests[rid], k.clientId))
    ensures SameView(s, Advance(s, k, now).0, rid) && !WinnerOn(Advance(s, k, now).1, rid)
  {
    if On(k, rid) {
      assert Advance(s, k, now).0 == s;
    } else {
      AdvanceElsewhere(s0, s, k, now, rid);
    }
  }

  lemma SameViewTransitive(s: Store, t: Store, u: Store, rid: Id)
    requires rid in s.requests && SameView(s, t, rid) && SameView(t, u, rid)
    requires forall o | o in s.offers && s.offers[o].requestId == rid :: t.offers[o].requestId == rid
    ensures SameView(s, u, rid)
  {
  }

  lemma WinnerViewCarries(s0: Store, s: Store, t: Store, rid: Id, k: Call)
    requires rid in s0.requests && WinnerView(s0, s, rid, k) && SameView(s, t, rid)
    requires Background(s0, s)
    ensures WinnerView(s0, t, rid, k)
  {
    assert OffersView(s0, t, rid, if k.phase == WriteOffer then None else Some(k.offerId), k.phase.Finished?) by {
      forall o | o in s0.offers && s0.offers[o].requestId == rid ensures o in t.offers && t.offers[o] == s.offers[o] {
        assert SameOffer(s0.offers[o], s.offers[o]);
      }
    }
  }

  lemma LockTaken(s0: Store, s: Store, k: Call, now: int, rid: Id)
    requires Background(s0, s) && CallOk(s0, k) && Open(s0, rid) && SameView(s0, s, rid)
    requires On(k, rid) && k.phase == TryLock && Lockable(s.requests[rid], k.clientId)
    ensures var (s', k') := Advance(s, k, now);
      s' == Lock(s, rid, k.offer.value.providerId) && k' == k.(phase := WriteOffer, won := true)
      && WinnerView(s0, s', rid, k') && WinnerOn(k', rid)
  {
  }

  lemma TakeWhileUnlocked(s0: Store, s: State, turn: Turn, rid: Id)
    requires Consistent(s0, s) && Open(s0, rid) && Unlocked(s0, s, rid)
    ensures Unlocked(s0, Take(s, turn), rid) || LockedBy(s0, Take(s, turn), rid, turn.call)
  {
    if turn.call in s.calls {
      var k := s.calls[turn.call];
      assert CallOk(s0, k) && UnlockedCall(s0, k, rid);
      if On(k, rid) && k.phase == TryLock && Lockable(s.store.requests[rid], k.clientId) {
        LockTaken(s0, s.store, k, turn.now, rid);
        assert LockedBy(s0, Take(s, turn), rid, turn.call);
      } else {
        var (s', k') := Advance(s.store, k, turn.now);
        QuietTurn(s0, s.store, k, turn.now, rid);
        SameViewTransitive(s0, s.store, s', rid);
        EligibleWaits(s0, s.store, k, turn.now, rid);
        assert UnlockedCall(s0, k', rid);
      }
    }
  }

  /** With the request as it was, an eligible call moves on towards the lock. */
  lemma EligibleWaits(s0: Store, s: Store, k: Call, now: int, rid: Id)
    requires Background(s0, s) && CallOk(s0, k) && Open(s0, rid) && SameView(s0, s, rid) && UnlockedCall(s0, k, rid)
    requires !(On(k, rid) && k.phase == TryLock && Lockable(s.requests[rid], k.clientId))
    ensures var k' := Advance(s, k, now).1;
      && (On(k', rid) && k'.offerId in s0.offers ==> k'.offer.value == s0.offers[k'.offerId])
      && (Eligible(s0, k', rid) ==> BeforeLock(k'.phase))
  {
    if k.offerId in s0.offers { assert SameOffer(s0.offers[k.offerId], s.offers[k.offerId]); }
  }

  /** The lock stays where it is if its holder stays a winner and the others do not become one. */
  lemma LockCarries(s0: Store, s: State, rid: Id, w: CallId, store: Store, c: CallId, k: Call)
    requires LockedBy(s0, s, rid, w) && c in s.calls
    requires if c == w then WinnerView(s0, store, rid, k) && k.offerId == s.calls[w].offerId
             else WinnerView(s0, store, rid, s.calls[w]) && !WinnerOn(k, rid)
    ensures LockedBy(s0, State(store, s.calls[c := k]), rid, w)
  {
  }

  lemma AdvanceKeepsOfferId(s: Store, k: Call, now: int)
    ensures Advance(s, k, now).1.offerId == k.offerId
  {
  }

  lemma TakeWhileLocked(s0: Store, s: State, turn: Turn, rid: Id, w: CallId)
    requires Consistent(s0, s) && Open(s0, rid) && LockedBy(s0, s, rid, w)
    ensures LockedBy(s0, Take(s, turn), rid, w)
  {
    if turn.call in s.calls {
      LockedTurn(s0, s, turn.call, turn.now, rid, w);
      var (store, k) := Advance(s.store, s.calls[turn.call], turn.now);
      LockCarries(s0, s, rid, w, store, turn.call, k);
    }
  }

  lemma LockedTurn(s0: Store, s: State, c: CallId, now: int, rid: Id, w: CallId)
    requires Consistent(s0, s) && Open(s0, rid) && LockedBy(s0, s, rid, w) && c in s.calls
    ensures var (store, k) := Advance(s.store, s.calls[c], now);
      if c == w then WinnerView(s0, store, rid, k) && k.offerId == s.calls[w].offerId
      else WinnerView(s0, store, rid, s.calls[w]) && !WinnerOn(k, rid)
  {
    assert CallOk(s0, s.calls[c]);
    AdvanceKeepsOfferId(s.store, s.calls[c], now);
    if c == w {
      WinnerAdvances(s0, s.store, rid, s.calls[c], now);
    } else {
      QuietTurn(s0, s.store, s.calls[c], now, rid);
      WinnerViewCarries(s0, s.store, Advance(s.store, s.calls[c], now).0, rid, s.calls[w]);
    }
  }

  ghost predicate Contest(s0: Store, s: State, rid: Id) {
    Consistent(s0, s) && (Unlocked(s0, s, rid) || exists w :: LockedBy(s0, s, rid, w))
  }

  lemma {:induction false} PlayKeepsContest(s0: Store, s: State, turns: seq<Turn>, rid: Id)
    requires Open(s0, rid) && Contest(s0, s, rid)
    ensures Contest(s0, Play(s, turns), rid)
    decreases |turns|
  {
    if turns != [] {
      TakeKeepsConsistent(s0, s, turns[0]);
      if Unlocked(s0, s, rid) {
        TakeWhileUnlocked(s0, s, turns[0], rid);
      } else {
        var w :| LockedBy(s0, s, rid, w);
        TakeWhileLocked(s0, s, turns[0], rid, w);
      }
      PlayKeepsContest(s0, Take(s, turns[0]), turns[1..], rid);
    }
  }

  // ---- The theorem ----

  ghost predicate JustStarted(calls: map<CallId, Call>) {
    forall t | t in calls :: calls[t] == Start(calls[t].clientId, calls[t].offerId)
  }

  /**
   * The end of a won contest: one contract was added for the winning offer and assigned, that offer is
   * accepted, every other sent offer of the request is declined, nothing else about it changed.
   */
  ghost predicate WonBy(s0: Store, s: Store, rid: Id, k: Call)
    requires rid in s0.requests
  {
    && On(k, rid) && Added(s0, s, k)
    && RequestView(s0, s, rid, Some(k.offer.value.providerId), k.contract)
    && OffersView(s0, s, rid, Some(k.offerId), true)
    && ContractsView(s0, s, rid, k.contract)
  }

  lemma ReachableIsOpen(s0: Store, rid: Id)
    requires Inv(s0) && rid in s0.requests && s0.requests[rid].status == Published
      && s0.requests[rid].matchedProvider.None?
    ensures Open(s0, rid) && Background(s0, s0)
  {
    assert RequestOk(s0, rid);
    forall c | c in s0.contracts
      ensures ContractOfItsOffer(s0, c) && s0.offers[s0.contracts[c].offerId].status == Accepted
    {
      assert ContractOk(s0, c);
    }
  }

  /**
   * At most one winner; without one the request is untouched; a finished winner leaves exactly its own
   * result; and once all calls are done, an eligible call among them means there is a winner.
   */
  ghost predicate Decided(s0: Store, end: State, rid: Id)
    requires rid in s0.requests
  {
    && (forall t, u | t in end.calls && u in end.calls && WinnerOn(end.calls[t], rid)
       && WinnerOn(end.calls[u], rid) :: t == u)
    && ((forall t | t in end.calls :: !WinnerOn(end.calls[t], rid)) ==> SameView(s0, end.store, rid))
    && (forall w | w in end.calls && WinnerOn(end.calls[w], rid) && end.calls[w].phase.Finished? ::
          WonBy(s0, end.store, rid, end.calls[w]))
    && ((forall t | t in end.calls :: end.calls[t].phase.Finished?)
        && (exists t | t in end.calls :: Eligible(s0, end.calls[t], rid)) ==>
          exists w | w in end.calls :: WinnerOn(end.calls[w], rid))
  }

  lemma LockedIsDecided(s0: Store, end: State, rid: Id, w: CallId)
    requires LockedBy(s0, end, rid, w)
    ensures Decided(s0, end, rid)
  {
    assert WinnerOn(end.calls[w], rid);
  }

  lemma UnlockedIsDecided(s0: Store, end: State, rid: Id)
    requires Unlocked(s0, end, rid)
    ensures Decided(s0, end, rid)
  {
    assert forall t | t in end.calls :: UnlockedCall(s0, end.calls[t], rid);
  }

  lemma StartIsUnlocked(s0: Store, calls: map<CallId, Call>, rid: Id)
    requires JustStarted(calls) && rid in s0.requests && Background(s0, s0)
    ensures Contest(s0, State(s0, calls), rid)
  {
    forall t | t in calls ensures CallOk(s0, calls[t]) && UnlockedCall(s0, calls[t], rid) {
      assert calls[t].phase == ReadOffer;
    }
    assert Unlocked(s0, State(s0, calls), rid);
  }

  /**
   * Any number of calls on a reachable store, interleaved operation by operation: a published, unmatched
   * request is won at most once, and by the rules above.
   */
  lemma OneAcceptWins(s0: Store, calls: map<CallId, Call>, turns: seq<Turn>, rid: Id)
    requires Inv(s0) && JustStarted(calls)
    requires rid in s0.requests && s0.requests[rid].status == Published && s0.requests[rid].matchedProvider.None?
    ensures Decided(s0, Play(State(s0, calls), turns), rid)
  {
    ReachableIsOpen(s0, rid);
    StartIsUnlocked(s0, calls, rid);
    PlayKeepsContest(s0, State(s0, calls), turns, rid);
    var end := Play(State(s0, calls), turns);
    if Unlocked(s0, end, rid) {
      UnlockedIsDecided(s0, end, rid);
    } else {
      var w :| LockedBy(s0, end, rid, w);
      LockedIsDecided(s0, end, rid, w);
    }
  }

  lemma WonMatchesAtomic(s0: Store, s: Store, rid: Id, k: Call, now: int)
    requires Inv(s0) && Open(s0, rid) && WonBy(s0, s, rid, k) && Eligible(s0, k, rid)
    requires SameOffer(s0.offers[k.offerId], k.offer.value)
    ensures AsIfAlone(s0, s, rid, k, now)
  {
    AcceptCases(s0, now, k.clientId, k.offerId);
  }

  /**
   * The request and its offers are as the call of `k`, run alone on `s0`, would have left them, up to the id of
   * its contract.
   */
  ghost predicate AsIfAlone(s0: Store, s: Store, rid: Id, k: Call, now: int) {
    var atomic := Accept(s0, now, k.clientId, k.offerId);
    && atomic.result == Ok(())
    && rid in atomic.store.requests && rid in s.requests
    && s.requests[rid] == atomic.store.requests[rid].(assignedContract := k.contract)
    && (forall o | o in s0.offers && s0.offers[o].requestId == rid ::
          o in s.offers && o in atomic.store.offers && s.offers[o] == atomic.store.offers[o])
  }

  /**
   * Whatever the other calls did in between, a finished winner leaves the request and its offers as if it had
   * run alone.
   */
  lemma WinnerMatchesAtomic(s0: Store, calls: map<CallId, Call>, turns: seq<Turn>, rid: Id, w: CallId, now: int)
    requires Inv(s0) && JustStarted(calls)
    requires rid in s0.requests && s0.requests[rid].status == Published && s0.requests[rid].matchedProvider.None?
    requires var end := Play(State(s0, calls), turns);
      w in end.calls && WinnerOn(end.calls[w], rid) && end.calls[w].phase.Finished?
    ensures var end := Play(State(s0, calls), turns);
      AsIfAlone(s0, end.store, rid, end.calls[w], now)
  {
    ReachableIsOpen(s0, rid);
    StartIsUnlocked(s0, calls, rid);
    PlayKeepsContest(s0, State(s0, calls), turns, rid);
    var end := Play(State(s0, calls), turns);
    WinnerIsEligible(s0, end, rid, w);
    OneAcceptWins(s0, calls, turns, rid);
    WonMatchesAtomic(s0, end.store, rid, end.calls[w], now);
  }

  lemma WinnerIsEligible(s0: Store, end: State, rid: Id, w: CallId)
    requires Contest(s0, end, rid) && w in end.calls && WinnerOn(end.calls[w], rid)
    ensures Eligible(s0, end.calls[w], rid) && SameOffer(s0.offers[end.calls[w].offerId], end.calls[w].offer.value)
  {
    var k := end.calls[w];
    assert CallOk(s0, k);
    if !Unlocked(s0, end, rid) {
      var v :| LockedBy(s0, end, rid, v);
    }
  }

  // ---- Requests that are not open ----

  /** The request is not on the market, or somebody is matched with it. */
  predicate Shut(s0: Store, rid: Id)
    requires rid in s0.requests
  {
    s0.requests[rid].status != Published || s0.requests[rid].matchedProvider.Some?
  }

  /** What a call for an offer on a shut request is answered. */
  function ShutAnswer(s0: Store, k: Call): Result<()>
    requires k.offerId in s0.offers && s0.offers[k.offerId].requestId in s0.requests
  {
    if s0.requests[s0.offers[k.offerId].requestId].clientId != Some(k.clientId) then Err(Forbidden)
    else if s0.offers[k.offerId].status == Accepted then Ok(())
    else Err(BadRequest)
  }

  /** A call for an offer of the request has read it as it was, and has been answered accordingly if it is done. */
  ghost predicate ShutCall(s0: Store, k: Call, rid: Id) {
    && !WinnerOn(k, rid)
    && (k.offerId in s0.offers && s0.offers[k.offerId].requestId == rid && rid in s0.requests ==>
          match k.phase
          case ReadOffer => true
          case ReadRequest => k.offer == Some(s0.offers[k.offerId])
          case TryLock =>
            && k.offer == Some(s0.offers[k.offerId]) && s0.offers[k.offerId].status == Sent
            && s0.requests[rid].clientId == Some(k.clientId)
          case Finished(result) => result == ShutAnswer(s0, k)
          case _ => false)
  }

  lemma ShutCallAdvances(s0: Store, s: Store, k: Call, now: int, rid: Id)
    requires Background(s0, s) && CallOk(s0, k) && rid in s0.requests && Shut(s0, rid)
    requires SameView(s0, s, rid) && ShutCall(s0, k, rid)
    ensures SameView(s, Advance(s, k, now).0, rid) && ShutCall(s0, Advance(s, k, now).1, rid)
  {
    QuietTurn(s0, s, k, now, rid);
    if k.offerId in s0.offers && s0.offers[k.offerId].requestId == rid {
      assert s.offers[k.offerId] == s0.offers[k.offerId];
    }
  }

  /**
   * Whatever calls run, in whatever interleaving: a request that is not published, or matched already, is won by
   * nobody and left as it was with all its offers and contracts, and every call for one of its offers that
   * finishes is refused, or told that its offer has long been accepted.
   */
  lemma {:induction false} ShutRequestUntouched(s0: Store, s: State, turns: seq<Turn>, rid: Id)
    requires Consistent(s0, s) && rid in s0.requests && Shut(s0, rid) && SameView(s0, s.store, rid)
    requires forall t | t in s.calls :: ShutCall(s0, s.calls[t], rid)
    ensures var end := Play(s, turns);
      && SameView(s0, end.store, rid)
      && forall t | t in end.calls :: ShutCall(s0, end.calls[t], rid)
    decreases |turns|
  {
    if turns != [] {
      var next := Take(s, turns[0]);
      TakeKeepsConsistent(s0, s, turns[0]);
      if turns[0].call in s.calls {
        var k := s.calls[turns[0].call];
        ShutCallAdvances(s0, s.store, k, turns[0].now, rid);
        SameViewTransitive(s0, s.store, next.store, rid);
      }
      ShutRequestUntouched(s0, next, turns[1..], rid);
    }
  }

  /** That is so for all runs of calls that have just started. */
  lemma NobodyWinsShut(s0: Store, calls: map<CallId, Call>, turns: seq<Turn>, rid: Id)
    requires Inv(s0) && JustStarted(calls) && rid in s0.requests
    requires s0.requests[rid].status != Published || s0.requests[rid].matchedProvider.Some?
    ensures var end := Play(State(s0, calls), turns);
      && SameView(s0, end.store, rid)
      && (forall t | t in end.calls :: !WinnerOn(end.calls[t], rid))
      && (forall t | t in end.calls && end.calls[t].phase.Finished?
            && end.calls[t].offerId in s0.offers && s0.offers[end.calls[t].offerId].requestId == rid ::
            end.calls[t].phase.result == ShutAnswer(s0, end.calls[t]))
  {
    assert Background(s0, s0) by {
      forall c | c in s0.contracts ensures ContractOfItsOffer(s0, c) { assert ContractOk(s0, c); }
    }
    forall t | t in calls ensures CallOk(s0, calls[t]) && ShutCall(s0, calls[t], rid) {
      assert calls[t].phase == ReadOffer;
    }
    ShutRequestUntouched(s0, State(s0, calls), turns, rid);
  }
}
