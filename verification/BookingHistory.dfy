/** The reschedule chain of a booking, and what getHistory returns of it in a reachable store. */
module BookingHistory {
  import opened Common
  import opened Bookings
  import opened BookingRuns

  /** A maximal chain: starts without predecessor, follows forward links, ends without successor. */
  ghost predicate IsChain(s: Store, c: seq<Id>) {
    && c != []
    && (forall i | 0 <= i < |c| :: c[i] in s.bookings)
    && (forall i | 0 <= i < |c| - 1 :: s.bookings[c[i]].rescheduledToId == Some(c[i + 1]))
    && s.bookings[c[0]].rescheduledFromId.None?
    && s.bookings[c[|c| - 1]].rescheduledToId.None?
  }

  /** The ancestors of `id`, oldest first, and `id` itself. */
  ghost function PathFromRoot(s: Store, id: Id): (p: seq<Id>)
    requires ChainInv(s) && id in s.bookings
    ensures p != [] && p[|p| - 1] == id
    decreases id
  {
    if s.bookings[id].rescheduledFromId.None? then [id]
    else
      assert BackLinked(s, id);
      PathFromRoot(s, s.bookings[id].rescheduledFromId.value) + [id]
  }

  /** `id` and its successors. */
  ghost function PathToTail(s: Store, id: Id): (p: seq<Id>)
    requires ChainInv(s) && id in s.bookings
    ensures p != [] && p[0] == id
    decreases s.nextId - id
  {
    if s.bookings[id].rescheduledToId.None? then [id]
    else
      assert ForwardLinked(s, id);
      [id] + PathToTail(s, s.bookings[id].rescheduledToId.value)
  }

  ghost function ChainOf(s: Store, id: Id): seq<Id>
    requires ChainInv(s) && id in s.bookings
  {
    PathFromRoot(s, id) + PathToTail(s, id)[1..]
  }

  /** The number of predecessors of `id` on its chain. */
  ghost function Position(s: Store, id: Id): nat
    requires ChainInv(s) && id in s.bookings
  {
    |PathFromRoot(s, id)| - 1
  }

  ghost predicate Ascending(c: seq<Id>) {
    forall i, j | 0 <= i < j < |c| :: c[i] < c[j]
  }

  lemma {:induction false} PathFromRootShape(s: Store, id: Id)
    requires ChainInv(s) && id in s.bookings
    ensures var p := PathFromRoot(s, id);
      && (forall i | 0 <= i < |p| :: p[i] in s.bookings)
      && (forall i | 0 <= i < |p| - 1 :: s.bookings[p[i]].rescheduledToId == Some(p[i + 1]))
      && s.bookings[p[0]].rescheduledFromId.None?
    decreases id
  {
    if s.bookings[id].rescheduledFromId.Some? {
      var prev := s.bookings[id].rescheduledFromId.value;
      assert BackLinked(s, id) && ForwardLinked(s, prev);
      PathFromRootShape(s, prev);
    }
  }

  lemma {:induction false} PathToTailShape(s: Store, id: Id)
    requires ChainInv(s) && id in s.bookings
    ensures var p := PathToTail(s, id);
      && (forall i | 0 <= i < |p| :: p[i] in s.bookings)
      && (forall i | 0 <= i < |p| - 1 :: s.bookings[p[i]].rescheduledToId == Some(p[i + 1]))
      && s.bookings[p[|p| - 1]].rescheduledToId.None?
    decreases s.nextId - id
  {
    if s.bookings[id].rescheduledToId.Some? {
      var next := s.bookings[id].rescheduledToId.value;
      assert ForwardLinked(s, id);
      PathToTailShape(s, next);
      var p, q := PathToTail(s, id), PathToTail(s, next);
      assert p == [id] + q;
      forall i | 0 <= i < |p| - 1 ensures s.bookings[p[i]].rescheduledToId == Some(p[i + 1]) {
        if i > 0 { assert p[i] == q[i - 1]; }
      }
    }
  }

  /** Gluing two paths at their common booking. */
  lemma Glue(p: seq<Id>, q: seq<Id>, c: seq<Id>)
    requires p != [] && q != [] && p[|p| - 1] == q[0] && c == p + q[1..]
    ensures |c| == |p| + |q| - 1
    ensures forall i | 0 <= i < |p| :: c[i] == p[i]
    ensures forall i | 0 <= i < |q| :: c[|p| - 1 + i] == q[i]
  {
  }

  lemma GluedLinks(s: Store, p: seq<Id>, q: seq<Id>, c: seq<Id>)
    requires p != [] && q != [] && p[|p| - 1] == q[0] && c == p + q[1..]
    requires forall i | 0 <= i < |p| :: p[i] in s.bookings
    requires forall i | 0 <= i < |q| :: q[i] in s.bookings
    requires forall i | 0 <= i < |p| - 1 :: s.bookings[p[i]].rescheduledToId == Some(p[i + 1])
    requires forall i | 0 <= i < |q| - 1 :: s.bookings[q[i]].rescheduledToId == Some(q[i + 1])
    requires s.bookings[p[0]].rescheduledFromId.None? && s.bookings[q[|q| - 1]].rescheduledToId.None?
    ensures IsChain(s, c)
  {
    Glue(p, q, c);
    forall i | 0 <= i < |c| ensures c[i] in s.bookings {
      if i >= |p| { assert c[|p| - 1 + (i - |p| + 1)] == q[i - |p| + 1]; }
    }
    forall i | 0 <= i < |c| - 1 ensures s.bookings[c[i]].rescheduledToId == Some(c[i + 1]) {
      if i < |p| - 1 {
        assert c[i] == p[i] && c[i + 1] == p[i + 1];
      } else {
        var k := i - (|p| - 1);
        assert c[|p| - 1 + k] == q[k] && c[|p| - 1 + (k + 1)] == q[k + 1];
      }
    }
    assert c[|p| - 1 + (|q| - 1)] == q[|q| - 1];
  }

  /** Every booking lies on a chain, at its position. */
  lemma ChainIsChain(s: Store, id: Id)
    requires ChainInv(s) && id in s.bookings
    ensures IsChain(s, ChainOf(s, id)) && Position(s, id) < |ChainOf(s, id)| && ChainOf(s, id)[Position(s, id)] == id
  {
    var p, q, c := PathFromRoot(s, id), PathToTail(s, id), ChainOf(s, id);
    PathFromRootShape(s, id);
    PathToTailShape(s, id);
    Glue(p, q, c);
    GluedLinks(s, p, q, c);
  }

  lemma {:induction false} ChainAscends(s: Store, c: seq<Id>, i: nat, j: nat)
    requires ChainInv(s) && IsChain(s, c) && i < j < |c|
    ensures c[i] < c[j] && s.bookings[c[i]].status == Cancelled && SameParties(s.bookings[c[i]], s.bookings[c[j]])
    decreases j - i
  {
    assert ForwardLinked(s, c[i]);
    if i + 1 < j { ChainAscends(s, c, i + 1, j); }
  }

  /** The chain of a booking: bookings of the same parties in order of creation, only the last one active. */
  lemma ChainShape(s: Store, id: Id)
    requires ChainInv(s) && id in s.bookings
    ensures var c := ChainOf(s, id);
      && IsChain(s, c) && Ascending(c)
      && Position(s, id) < |c| && c[Position(s, id)] == id
      && (forall i | 0 <= i < |c| :: SameParties(s.bookings[c[i]], s.bookings[id]))
      && (forall i | 0 <= i < |c| - 1 :: s.bookings[c[i]].status == Cancelled)
  {
    ChainIsChain(s, id);
    var c, p := ChainOf(s, id), Position(s, id);
    forall i, j | 0 <= i < j < |c|
      ensures c[i] < c[j] && s.bookings[c[i]].status == Cancelled
    {
      ChainAscends(s, c, i, j);
    }
    forall i | 0 <= i < |c| ensures SameParties(s.bookings[c[i]], s.bookings[id]) {
      if i < p { ChainAscends(s, c, i, p); }
      if p < i { ChainAscends(s, c, p, i); }
    }
    forall i | 0 <= i < |c| - 1 ensures s.bookings[c[i]].status == Cancelled {
      ChainAscends(s, c, i, i + 1);
    }
  }

  lemma {:induction false} ChainPrefix(s: Store, c: seq<Id>, k: nat)
    requires ChainInv(s) && IsChain(s, c) && k < |c|
    ensures PathFromRoot(s, c[k]) == c[..k + 1]
  {
    if k == 0 {
      assert c[..1] == [c[0]];
    } else {
      ChainPrefix(s, c, k - 1);
      assert ForwardLinked(s, c[k - 1]);
      assert c[..k + 1] == c[..k] + [c[k]];
    }
  }

  lemma {:induction false} ChainSuffix(s: Store, c: seq<Id>, k: nat)
    requires ChainInv(s) && IsChain(s, c) && k < |c|
    ensures PathToTail(s, c[k]) == c[k..]
    decreases |c| - k
  {
    if k == |c| - 1 {
      assert c[k..] == [c[k]];
    } else {
      ChainSuffix(s, c, k + 1);
      assert c[k..] == [c[k]] + c[k + 1..];
    }
  }

  /** A booking lies on exactly one chain: every chain through it is ChainOf. */
  lemma ChainUnique(s: Store, c: seq<Id>, k: nat)
    requires ChainInv(s) && IsChain(s, c) && k < |c|
    ensures c == ChainOf(s, c[k]) && k == Position(s, c[k])
  {
    ChainPrefix(s, c, k);
    ChainSuffix(s, c, k);
    assert c == c[..k + 1] + c[k..][1..];
  }

  // ---- What the walks return ----

  ghost predicate Fetched(s: Store, byId: map<Id, Booking>, c: seq<Id>) {
    && (forall i | i in byId :: i in s.bookings && byId[i] == s.bookings[i])
    && (forall i | 0 <= i < |c| :: c[i] in byId)
  }

  lemma {:induction false} WalkBackAlongChain(
    s: Store, byId: map<Id, Booking>, c: seq<Id>, k: nat, visited: set<Id>, hops: nat)
    requires ChainInv(s) && IsChain(s, c) && Ascending(c) && Fetched(s, byId, c) && k < |c|
    requires forall v | v in visited :: v >= c[k]
    ensures WalkBack(byId, c[k], visited, hops) == Ok(c[Max(0, k - hops)])
    decreases k
  {
    if k > 0 && hops > 0 {
      assert ForwardLinked(s, c[k - 1]);
      WalkBackAlongChain(s, byId, c, k - 1, visited + {c[k - 1]}, hops - 1);
    }
  }

  lemma SliceHead(c: seq<Id>, k: nat, end: nat)
    requires k < end <= |c|
    ensures c[k..end] == [c[k]] + c[k + 1..end]
  {
  }

  lemma {:induction false} WalkForwardAlongChain(
    s: Store, byId: map<Id, Booking>, c: seq<Id>, k: nat, visited: set<Id>, hops: nat)
    requires ChainInv(s) && IsChain(s, c) && Ascending(c) && Fetched(s, byId, c) && k < |c|
    requires forall v | v in visited :: v <= c[k]
    ensures WalkForward(byId, c[k], visited, hops) == Ok(c[k..Min(|c|, k + hops)])
    decreases |c| - k
  {
    if hops > 0 && k < |c| - 1 {
      WalkForwardAlongChain(s, byId, c, k + 1, visited + {c[k + 1]}, hops - 1);
      var end := Min(|c|, k + hops);
      assert end == Min(|c|, (k + 1) + (hops - 1));
      SliceHead(c, k, end);
      assert c[k] < c[k + 1] && c[k + 1] !in visited;
    } else if hops > 0 {
      assert c[k..|c|] == [c[k]];
    } else {
      assert c[k..Min(|c|, k)] == [];
    }
  }

  lemma FetchedChain(s: Store, id: Id)
    requires ChainInv(s) && id in s.bookings
    ensures Fetched(s, SameChainKey(s.bookings, s.bookings[id]), ChainOf(s, id))
  {
    ChainShape(s, id);
  }

  lemma IndexInWindow(c: seq<Id>, p: nat, hops: nat)
    requires Ascending(c) && p < |c| && hops > 0
    ensures var r := Max(0, p - hops);
      IndexOf(c[r..Min(|c|, r + hops)], c[p]) == if p < hops then p else -1
  {
    var r := Max(0, p - hops);
    var items := c[r..Min(|c|, r + hops)];
    var i := IndexOf(items, c[p]);
    if i != -1 {
      assert items[i] == c[r + i];
    }
    if p < hops {
      assert items[p] == c[p] && c[p] in items;
    }
  }

  lemma HistoryFromWalks(byId: map<Id, Booking>, id: Id, hops: nat, root: Id, items: seq<Id>)
    requires id in byId && root in byId && hops > 0 && items != []
    requires WalkBack(byId, id, {id}, hops) == Ok(root)
    requires WalkForward(byId, root, {root}, hops) == Ok(items)
    ensures HistoryOf(byId, id, hops) == Ok(History(root, id, items[|items| - 1], IndexOf(items, id), items))
  {
  }

  /** The window of a chain that a walk from its `p`-th booking sees. */
  ghost predicate SeesWindow(s: Store, byId: map<Id, Booking>, c: seq<Id>, p: nat, hops: nat, r: nat, items: seq<Id>) {
    && ChainInv(s) && IsChain(s, c) && Ascending(c) && Fetched(s, byId, c) && p < |c| && hops > 0
    && r == Max(0, p - hops) && items == c[r..Min(|c|, r + hops)]
  }

  lemma RootOfWindow(s: Store, byId: map<Id, Booking>, c: seq<Id>, p: nat, hops: nat, r: nat, items: seq<Id>)
    requires SeesWindow(s, byId, c, p, hops, r, items)
    ensures c[p] in byId && c[r] in byId && items != []
    ensures WalkBack(byId, c[p], {c[p]}, hops) == Ok(c[r])
  {
    WalkBackAlongChain(s, byId, c, p, {c[p]}, hops);
  }

  lemma ItemsOfWindow(s: Store, byId: map<Id, Booking>, c: seq<Id>, p: nat, hops: nat, r: nat, items: seq<Id>)
    requires SeesWindow(s, byId, c, p, hops, r, items)
    ensures c[r] in byId && WalkForward(byId, c[r], {c[r]}, hops) == Ok(items)
  {
    WalkForwardAlongChain(s, byId, c, r, {c[r]}, hops);
  }

  /** The walk in general, for any hop bound. */
  lemma HistoryOfChain(s: Store, byId: map<Id, Booking>, c: seq<Id>, p: nat, hops: nat, r: nat, items: seq<Id>)
    requires SeesWindow(s, byId, c, p, hops, r, items)
    ensures items != [] && c[p] in byId
    ensures HistoryOf(byId, c[p], hops)
      == Ok(History(c[r], c[p], items[|items| - 1], if p < hops then p else -1, items))
  {
    RootOfWindow(s, byId, c, p, hops, r, items);
    ItemsOfWindow(s, byId, c, p, hops, r, items);
    IndexInWindow(c, p, hops);
    HistoryFromWalks(byId, c[p], hops, c[r], items);
  }

  /**
   * getHistory on a reachable store: it answers with the chain of the requested booking, root to tail,
   * cut to 200 items. The index is the true position for the first 200 bookings of a chain
   * and -1 for every later one.
   */
  lemma HistoryIsTheChain(s: Store, actor: Actor, id: Id)
    requires ChainInv(s) && id in s.bookings && MayAct(s.bookings[id], actor)
    ensures var c, p := ChainOf(s, id), Position(s, id);
      var r := Max(0, p - 200);
      var h := GetHistory(s, actor, id);
      && h.Ok?
      && h.value.items == c[r..Min(|c|, r + 200)]
      && h.value.rootId == c[r] && h.value.requestedId == id
      && h.value.latestId == h.value.items[|h.value.items| - 1]
      && (h.value.currentIndex == p <==> p < 200)
      && (h.value.currentIndex == -1 <==> p >= 200)
      && (h.value.items == c <==> |c| <= 200)
  {
    var hops := MAX_HOPS;
    HistoryWithin(s, id, hops);
  }

  /** The same for any bound on the hops. */
  lemma HistoryWithin(s: Store, id: Id, hops: nat)
    requires ChainInv(s) && id in s.bookings && hops > 0
    ensures var c, p := ChainOf(s, id), Position(s, id);
      var r := Max(0, p - hops);
      var h := HistoryOf(SameChainKey(s.bookings, s.bookings[id]), id, hops);
      && h.Ok?
      && h.value.items == c[r..Min(|c|, r + hops)]
      && h.value.rootId == c[r] && h.value.requestedId == id
      && h.value.latestId == h.value.items[|h.value.items| - 1]
      && (h.value.currentIndex == p <==> p < hops)
      && (h.value.currentIndex == -1 <==> p >= hops)
      && (h.value.items == c <==> |c| <= hops)
  {
    ChainShape(s, id);
    FetchedChain(s, id);
    var c, p := ChainOf(s, id), Position(s, id);
    var r := Max(0, p - hops);
    HistoryOfChain(s, SameChainKey(s.bookings, s.bookings[id]), c, p, hops, r, c[r..Min(|c|, r + hops)]);
    if |c| <= hops { assert c[0..|c|] == c; }
  }

  /** In a reachable store the call fails only for want of the booking or of the right to see it. */
  lemma ReachableHistory(s: Store, actor: Actor, id: Id)
    ensures Reachable(s) ==> (GetHistory(s, actor, id).Ok? <==> id in s.bookings && MayAct(s.bookings[id], actor))
    ensures id !in s.bookings ==> GetHistory(s, actor, id) == Err(NotFound)
    ensures id in s.bookings && !MayAct(s.bookings[id], actor) ==> GetHistory(s, actor, id) == Err(Forbidden)
  {
    if Reachable(s) && id in s.bookings && MayAct(s.bookings[id], actor) {
      ReachableInv(s);
      HistoryIsTheChain(s, actor, id);
    }
  }

  // ---- Arbitrary link data ----

  datatype Direction = Backward | Forward

  /** The stored neighbour of a fetched booking, if it is fetched too. */
  function Neighbour(byId: map<Id, Booking>, id: Id, d: Direction): Option<Id>
    requires id in byId
  {
    var link := if d == Backward then byId[id].rescheduledFromId else byId[id].rescheduledToId;
    if link.Some? && link.value in byId then link else None
  }

  /** A path along stored links in one direction; it may visit a booking more than once. */
  ghost predicate Path(byId: map<Id, Booking>, d: Direction, p: seq<Id>) {
    && p != []
    && (forall i | 0 <= i < |p| :: p[i] in byId)
    && (forall i | 0 <= i < |p| - 1 :: Neighbour(byId, p[i], d) == Some(p[i + 1]))
  }

  /** A path from `from`, of at most `hops` links, whose last booking is in `visited` or on the path before. */
  ghost predicate Returns(byId: map<Id, Booking>, d: Direction, from: Id, visited: set<Id>, hops: nat, p: seq<Id>) {
    && Path(byId, d, p) && p[0] == from && 2 <= |p| <= hops + 1
    && (p[|p| - 1] in visited || p[|p| - 1] in p[..|p| - 1])
  }

  ghost predicate CanReturn(byId: map<Id, Booking>, d: Direction, from: Id, visited: set<Id>, hops: nat) {
    exists p :: Returns(byId, d, from, visited, hops, p)
  }

  /** The links lead from a booking back to one met before within `hops` steps. */
  ghost predicate Cycles(byId: map<Id, Booking>, d: Direction, from: Id, hops: nat) {
    CanReturn(byId, d, from, {}, hops)
  }

  /** One step along the links takes the start off a returning path. */
  lemma ReturnsTail(byId: map<Id, Booking>, d: Direction, from: Id, visited: set<Id>, hops: nat, p: seq<Id>)
    requires from in visited && Returns(byId, d, from, visited, hops, p) && p[1] !in visited
    ensures hops > 0 && Returns(byId, d, p[1], visited + {p[1]}, hops - 1, p[1..])
  {
    var last := p[|p| - 1];
    assert p[..|p| - 1] == [p[0]] + p[1..|p| - 1];
    assert p[1..][..|p| - 2] == p[1..|p| - 1];
  }

  lemma ReturnsCons(byId: map<Id, Booking>, d: Direction, from: Id, next: Id, visited: set<Id>, hops: nat, p: seq<Id>)
    requires from in byId && Neighbour(byId, from, d) == Some(next)
    requires Returns(byId, d, next, visited + {next}, hops, p)
    ensures Returns(byId, d, from, visited, hops + 1, [from] + p)
  {
    var q := [from] + p;
    assert q[..|q| - 1] == [from] + p[..|p| - 1];
    if p[|p| - 1] == next { assert p[..|p| - 1][0] == next; }
  }

  lemma CanReturnStep(byId: map<Id, Booking>, d: Direction, from: Id, next: Id, visited: set<Id>, hops: nat)
    requires from in byId && from in visited && Neighbour(byId, from, d) == Some(next) && next !in visited
    ensures CanReturn(byId, d, from, visited, hops + 1) <==> CanReturn(byId, d, next, visited + {next}, hops)
  {
    var more, longer := visited + {next}, hops + 1;
    if p :| Returns(byId, d, next, more, hops, p) {
      ReturnsCons(byId, d, from, next, visited, hops, p);
    }
    if p :| Returns(byId, d, from, visited, longer, p) {
      assert Neighbour(byId, p[0], d) == Some(p[1]);
      ReturnsTail(byId, d, from, visited, hops + 1, p);
    }
  }

  lemma CannotReturn(byId: map<Id, Booking>, d: Direction, from: Id, visited: set<Id>, hops: nat)
    requires from in byId && (hops == 0 || Neighbour(byId, from, d).None?)
    ensures !CanReturn(byId, d, from, visited, hops)
  {
    forall p ensures !Returns(byId, d, from, visited, hops, p) {
      if |p| >= 2 && Path(byId, d, p) { assert Neighbour(byId, p[0], d) == Some(p[1]); }
    }
  }

  /** Walking fails exactly when the links return to a visited booking within the hops. */
  lemma {:induction false} WalkBackFailsIff(byId: map<Id, Booking>, at: Id, visited: set<Id>, hops: nat)
    requires at in byId && at in visited
    ensures WalkBack(byId, at, visited, hops).Err? <==> CanReturn(byId, Backward, at, visited, hops)
    decreases hops
  {
    if hops == 0 || Neighbour(byId, at, Backward).None? {
      CannotReturn(byId, Backward, at, visited, hops);
    } else {
      var prev := Neighbour(byId, at, Backward).value;
      if prev in visited {
        assert Returns(byId, Backward, at, visited, hops, [at, prev]);
      } else {
        CanReturnStep(byId, Backward, at, prev, visited, hops - 1);
        WalkBackFailsIff(byId, prev, visited + {prev}, hops - 1);
      }
    }
  }

  lemma {:induction false} WalkForwardFailsIff(byId: map<Id, Booking>, at: Id, visited: set<Id>, hops: nat)
    requires at in byId && at in visited
    ensures WalkForward(byId, at, visited, hops).Err? <==> CanReturn(byId, Forward, at, visited, hops)
    decreases hops
  {
    if hops == 0 || Neighbour(byId, at, Forward).None? {
      CannotReturn(byId, Forward, at, visited, hops);
    } else {
      var next := Neighbour(byId, at, Forward).value;
      if next in visited {
        assert Returns(byId, Forward, at, visited, hops, [at, next]);
      } else {
        CanReturnStep(byId, Forward, at, next, visited, hops - 1);
        WalkForwardFailsIff(byId, next, visited + {next}, hops - 1);
      }
    }
  }

  /** Having visited only the start is having visited nothing but the path itself. */
  lemma StartIsOnPath(byId: map<Id, Booking>, d: Direction, from: Id, hops: nat)
    ensures CanReturn(byId, d, from, {from}, hops) <==> Cycles(byId, d, from, hops)
  {
    var start := {from};
    if p :| Returns(byId, d, from, start, hops, p) {
      assert p[..|p| - 1][0] == from;
      assert Returns(byId, d, from, {}, hops, p);
    }
    var none: set<Id> := {};
    if p :| Returns(byId, d, from, none, hops, p) {
      assert Returns(byId, d, from, start, hops, p);
    }
  }

  /** `p` follows the links to their end, or for exactly `hops` steps. */
  ghost predicate EndsAt(byId: map<Id, Booking>, d: Direction, from: Id, hops: nat, p: seq<Id>) {
    && Path(byId, d, p) && p[0] == from && |p| <= hops + 1
    && (|p| == hops + 1 || Neighbour(byId, p[|p| - 1], d).None?)
  }

  /** There is only one such path. */
  lemma {:induction false} EndsAtUnique(byId: map<Id, Booking>, d: Direction, from: Id, hops: nat, p: seq<Id>,
                                        q: seq<Id>)
    requires EndsAt(byId, d, from, hops, p) && EndsAt(byId, d, from, hops, q)
    ensures p == q
    decreases hops
  {
    assert p == [from] + p[1..] && q == [from] + q[1..];
    if |p| > 1 { assert Neighbour(byId, p[0], d) == Some(p[1]); }
    if |q| > 1 { assert Neighbour(byId, q[0], d) == Some(q[1]); }
    if |p| > 1 && |q| > 1 {
      var next := p[1];
      EndsAtUnique(byId, d, next, hops - 1, p[1..], q[1..]);
    }
  }

  lemma {:induction false} WalkBackEnds(byId: map<Id, Booking>, at: Id, visited: set<Id>, hops: nat)
    returns (p: seq<Id>)
    requires at in byId && WalkBack(byId, at, visited, hops).Ok?
    ensures EndsAt(byId, Backward, at, hops, p) && p[|p| - 1] == WalkBack(byId, at, visited, hops).value
    decreases hops
  {
    p := [at];
    if hops > 0 && Neighbour(byId, at, Backward).Some? {
      var prev := Neighbour(byId, at, Backward).value;
      var rest := WalkBackEnds(byId, prev, visited + {prev}, hops - 1);
      p := [at] + rest;
    }
  }

  /** The items stop only at the bound or where no fetched booking follows. */
  lemma {:induction false} WalkForwardEnds(byId: map<Id, Booking>, at: Id, visited: set<Id>, hops: nat)
    requires at in byId && hops > 0 && WalkForward(byId, at, visited, hops).Ok?
    ensures var items := WalkForward(byId, at, visited, hops).value;
      items != [] && items[|items| - 1] in byId
      && (|items| == hops || Neighbour(byId, items[|items| - 1], Forward).None?)
    decreases hops
  {
    if hops > 1 && Neighbour(byId, at, Forward).Some? {
      var next := Neighbour(byId, at, Forward).value;
      WalkForwardEnds(byId, next, visited + {next}, hops - 1);
    }
  }

  /** A refused history: the links run in a circle, backward from the booking or forward from its root. */
  ghost predicate LinksCycle(byId: map<Id, Booking>, id: Id, hops: nat)
    requires id in byId
  {
    || Cycles(byId, Backward, id, hops)
    || (exists p :: EndsAt(byId, Backward, id, hops, p) && Cycles(byId, Forward, p[|p| - 1], hops))
  }

  /** An answered history: a walk from a true root, distinct and linked, as far as the bound and the data allow. */
  ghost predicate HistoryHolds(byId: map<Id, Booking>, id: Id, hops: nat, h: History) {
    && 0 < |h.items| <= hops
    && ForwardWalk(byId, h.items)
    && h.items[0] == h.rootId && h.latestId == h.items[|h.items| - 1] && h.requestedId == id
    && (exists p :: EndsAt(byId, Backward, id, hops, p) && p[|p| - 1] == h.rootId)
    && (|h.items| == hops || Neighbour(byId, h.latestId, Forward).None?)
    && h.currentIndex == IndexOf(h.items, id)
  }

  /**
   * getHistory on arbitrary link data: it always ends; it reports a conflict exactly when the links cycle
   * within 200 steps, and otherwise answers with at most 200 distinct bookings, each linked to
   * the next, that start at the reported root and stop only at the bound or at the end of the links.
   */
  lemma HistoryOnAnyData(s: Store, actor: Actor, id: Id)
    requires id in s.bookings && MayAct(s.bookings[id], actor)
    ensures var byId := map k | k in s.bookings && SameParties(s.bookings[k], s.bookings[id]) :: s.bookings[k];
      var h := GetHistory(s, actor, id);
      && (h.Err? <==> LinksCycle(byId, id, 200))
      && (h.Err? ==> h.error == Conflict)
      && (h.Ok? ==> HistoryHolds(byId, id, 200, h.value))
  {
    var hops := MAX_HOPS;
    var byId := map k | k in s.bookings && SameParties(s.bookings[k], s.bookings[id]) :: s.bookings[k];
    assert byId == SameChainKey(s.bookings, s.bookings[id]);
    HistoryExact(byId, id, hops);
  }

  lemma HistoryExact(byId: map<Id, Booking>, id: Id, hops: nat)
    requires id in byId && hops > 0
    ensures var h := HistoryOf(byId, id, hops);
      && (h.Err? <==> LinksCycle(byId, id, hops))
      && (h.Err? ==> h.error == Conflict)
      && (h.Ok? ==> HistoryHolds(byId, id, hops, h.value))
  {
    var back := WalkBack(byId, id, {id}, hops);
    WalkErrors(byId, id, {id}, hops);
    WalkBackFailsIff(byId, id, {id}, hops);
    StartIsOnPath(byId, Backward, id, hops);
    if back.Ok? {
      var root := back.value;
      var p := WalkBackEnds(byId, id, {id}, hops);
      forall q | EndsAt(byId, Backward, id, hops, q) ensures q == p {
        EndsAtUnique(byId, Backward, id, hops, p, q);
      }
      WalkErrors(byId, root, {root}, hops);
      WalkForwardFailsIff(byId, root, {root}, hops);
      StartIsOnPath(byId, Forward, root, hops);
      WalkForwardWalk(byId, root, {root}, hops);
      if WalkForward(byId, root, {root}, hops).Ok? {
        WalkForwardEnds(byId, root, {root}, hops);
      }
    }
  }

  lemma {:induction false} WalkErrors(byId: map<Id, Booking>, at: Id, visited: set<Id>, hops: nat)
    requires at in byId
    ensures var b := WalkBack(byId, at, visited, hops); b.Err? ==> b.error == Conflict
    ensures var f := WalkForward(byId, at, visited, hops); f.Err? ==> f.error == Conflict
    decreases hops
  {
    if hops > 0 {
      if byId[at].rescheduledFromId.Some? && byId[at].rescheduledFromId.value in byId {
        var prev := byId[at].rescheduledFromId.value;
        WalkErrors(byId, prev, visited + {prev}, hops - 1);
      }
      if byId[at].rescheduledToId.Some? && byId[at].rescheduledToId.value in byId {
        var next := byId[at].rescheduledToId.value;
        WalkErrors(byId, next, visited + {next}, hops - 1);
      }
    }
  }

  lemma MovedTail(s: Store, now: int, t: Ticket, c: seq<Id>)
    requires ChainInv(s) && IsChain(s, c) && Ascending(c) && t.oldId in c && s.bookings[t.oldId].status == Confirmed
    ensures IsChain(Moved(s, now, t), c + [s.nextId])
  {
    var m, d := Moved(s, now, t), c + [s.nextId];
    var k :| 0 <= k < |c| && c[k] == t.oldId;
    if k < |c| - 1 { ChainAscends(s, c, k, k + 1); }
    forall i | 0 <= i < |d| - 1
      ensures m.bookings[d[i]].rescheduledToId == Some(d[i + 1])
    {
      if i < |c| - 1 {
        assert c[i] < c[i + 1] && c[i] < c[|c| - 1];
        assert m.bookings[c[i]] == s.bookings[c[i]];
      }
    }
  }

  lemma MovedElsewhere(s: Store, now: int, t: Ticket, c: seq<Id>)
    requires ChainInv(s) && IsChain(s, c) && t.oldId !in c && t.oldId in s.bookings
    ensures IsChain(Moved(s, now, t), c)
  {
    var m := Moved(s, now, t);
    forall i | 0 <= i < |c| ensures c[i] in m.bookings && m.bookings[c[i]] == s.bookings[c[i]] {
      assert c[i] in s.bookings && c[i] != t.oldId && c[i] < s.nextId;
    }
  }

  /** A successful move appends exactly one booking to the chain of the old one and leaves other chains alone. */
  lemma MoveExtendsChain(s: Store, now: int, t: Ticket, id: Id)
    requires Inv(s) && id in s.bookings && CanMove(s, t)
    ensures Inv(Moved(s, now, t)) && RescheduleTx(s, now, t) == Outcome(Moved(s, now, t), Ok(s.nextId))
    ensures ChainOf(Moved(s, now, t), id)
      == if t.oldId in ChainOf(s, id) then ChainOf(s, id) + [s.nextId] else ChainOf(s, id)
  {
    RescheduleTxCases(s, now, t);
    MovedKeeps(s, now, t);
    ChainShape(s, id);
    var m, c, p := Moved(s, now, t), ChainOf(s, id), Position(s, id);
    if t.oldId in c {
      MovedTail(s, now, t, c);
      assert (c + [s.nextId])[p] == id;
      ChainUnique(m, c + [s.nextId], p);
    } else {
      MovedElsewhere(s, now, t, c);
      ChainUnique(m, c, p);
    }
  }

  // ---- Chains of any length ----

  const CLIENT := Actor("client", Client)

  function DayOf(n: nat): int { (n + 2) * 24 * HOUR_MS }

  /** Books the first day, then moves the booking to the next day again and again. */
  function StepNumber(n: nat): Step {
    var offered := [Slot(DayOf(n), EndOf(DayOf(n), 60))];
    if n == 0 then
      var input := CreateInput("request", "offer", None, "provider", Some(DayOf(0)), Some(60));
      CallCreate(0, CLIENT.userId, input, offered)
    else CallReschedule(0, CLIENT, n - 1, RescheduleInput(Some(DayOf(n)), None, None), offered)
  }

  function Moves(n: nat): (steps: seq<Step>)
    ensures |steps| == n
  {
    if n == 0 then [] else Moves(n - 1) + [StepNumber(n - 1)]
  }

  /** The last of `n` bookings is confirmed for its day and the others are cancelled. */
  ghost predicate LastReady(s: Store, n: nat) {
    && n > 0 && s.blackouts == [] && n - 1 in s.bookings
    && (forall id | id in s.bookings && id != n - 1 :: s.bookings[id].status == Cancelled)
    && s.bookings[n - 1].status == Confirmed && s.bookings[n - 1].clientId == CLIENT.userId
    && s.bookings[n - 1].startAt == DayOf(n - 1) && s.bookings[n - 1].durationMin == 60
  }

  /** After `n` steps: one chain of `n` bookings, the last one confirmed. */
  ghost predicate OneChain(s: Store, n: nat) {
    && Inv(s) && LastReady(s, n) && s.nextId == n
    && |ChainOf(s, n - 1)| == n && Position(s, n - 1) == n - 1
  }

  lemma FirstMove(s: Store)
    requires s == Store(map[], [], 0)
    ensures OneChain(Apply(s, StepNumber(0)), 1)
  {
    EmptyStoreInv([]);
    ApplyKeeps(s, StepNumber(0));
  }

  function NextTicket(n: nat): Ticket
    requires n > 0
  {
    TicketData(n - 1, DayOf(n), 60, EndOf(DayOf(n), 60), Client, None)
  }

  lemma NextSlotFree(s: Store, n: nat)
    requires LastReady(s, n)
    ensures SlotFree(s, s.bookings[n - 1].providerUserId, DayOf(n), EndOf(DayOf(n), 60), Some(n - 1))
  {
  }

  /** A client's own confirmed booking, far enough ahead, may be moved to a single offered slot that is free. */
  lemma CheckPasses(s: Store, id: Id, start: int)
    requires id in s.bookings && s.bookings[id].clientId == CLIENT.userId && s.bookings[id].status == Confirmed
    requires s.bookings[id].startAt >= 24 * HOUR_MS && s.bookings[id].durationMin == 60 && start > 0
    requires SlotFree(s, s.bookings[id].providerUserId, start, EndOf(start, 60), Some(id))
    ensures RescheduleCheck(s, 0, CLIENT, id, RescheduleInput(Some(start), None, None), [Slot(start, EndOf(start, 60))])
         == Ok(TicketData(id, start, 60, EndOf(start, 60), Client, None))
  {
    var offered := [Slot(start, EndOf(start, 60))];
    assert offered[0] in offered;
  }

  lemma CallIsTransaction(s: Store, now: int, actor: Actor, id: Id, input: RescheduleInput, offered: seq<Slot>,
                          t: Ticket)
    requires RescheduleCheck(s, now, actor, id, input, offered) == Ok(t)
    ensures Apply(s, CallReschedule(now, actor, id, input, offered)) == RescheduleTx(s, now, t).store
  {
  }

  lemma TransactionMoves(s: Store, now: int, t: Ticket)
    requires Inv(s) && CanMove(s, t)
    ensures RescheduleTx(s, now, t).store == Moved(s, now, t)
  {
    RescheduleTxCases(s, now, t);
  }

  lemma NextIsMove(s: Store, n: nat)
    requires Inv(s) && LastReady(s, n)
    ensures CanMove(s, NextTicket(n)) && Apply(s, StepNumber(n)) == Moved(s, 0, NextTicket(n))
  {
    var start := DayOf(n);
    NextSlotFree(s, n);
    assert CanMove(s, NextTicket(n));
    CheckPasses(s, n - 1, start);
    CallIsTransaction(s, 0, CLIENT, n - 1, RescheduleInput(Some(start), None, None), [Slot(start, EndOf(start, 60))],
                      NextTicket(n));
    TransactionMoves(s, 0, NextTicket(n));
  }

  lemma NextChain(s: Store, n: nat)
    requires OneChain(s, n) && CanMove(s, NextTicket(n))
    ensures var t := Moved(s, 0, NextTicket(n));
      Inv(t) && n in t.bookings && |ChainOf(t, n)| == n + 1 && Position(t, n) == n
  {
    var t, c := Moved(s, 0, NextTicket(n)), ChainOf(s, n - 1) + [n];
    MoveExtendsChain(s, 0, NextTicket(n), n - 1);
    ChainShape(s, n - 1);
    ChainShape(t, n - 1);
    assert c[n] == n;
    ChainUnique(t, c, n);
  }

  lemma NextMove(s: Store, n: nat)
    requires OneChain(s, n)
    ensures OneChain(Apply(s, StepNumber(n)), n + 1)
  {
    NextIsMove(s, n);
    NextChain(s, n);
  }

  lemma {:induction false} ChainsGrow(n: nat)
    requires n > 0
    ensures OneChain(Run(Store(map[], [], 0), Moves(n)), n)
  {
    var empty := Store(map[], [], 0);
    RunSnoc(empty, Moves(n - 1), StepNumber(n - 1));
    if n == 1 {
      assert Run(empty, []) == empty;
      FirstMove(empty);
    } else {
      ChainsGrow(n - 1);
      NextMove(Run(empty, Moves(n - 1)), n - 1);
    }
  }

  /** A run of any length over 200 ends in a booking whose history does not contain it. */
  lemma LongHistoryLosesIndex(n: nat)
    requires n > 200
    ensures var s := Run(Store(map[], [], 0), Moves(n));
      var h := GetHistory(s, CLIENT, n - 1);
      h.Ok? && h.value.currentIndex == -1 && |h.value.items| == 200
  {
    ChainsGrow(n);
    HistoryIsTheChain(Run(Store(map[], [], 0), Moves(n)), CLIENT, n - 1);
  }
}
