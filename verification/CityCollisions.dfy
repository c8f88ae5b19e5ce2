/**
 * When two cities of one import receive the same key: the exact condition, for any stored documents, any
 * cities with different identities and any answers of the lookup.
 */
module CityCollisions {
  import opened Common
  import opened CityDedupe
  import opened CityKeys

  // ---- What a run makes of documents and cache ----

  /** The document that held `key` before the run shares the city's identity. */
  predicate OriginalMatches(docs0: seq<Doc>, key: string, c: Incoming) {
    Held(docs0, key) && DocMatches(docs0[Holder(docs0, key)], c)
  }

  /** The first candidate that is free now, or was held before the run by a document of the city's identity. */
  function FirstStop(docs0: seq<Doc>, docs: seq<Doc>, c: Incoming, n: nat, limit: nat): Result<string>
    decreases limit + 1 - n
  {
    if n > limit then Err(BadRequest)
    else if !Held(docs, Candidate(c.key, n)) || OriginalMatches(docs0, Candidate(c.key, n), c)
      then Ok(Candidate(c.key, n))
    else FirstStop(docs0, docs, c, n + 1, limit)
  }

  ghost predicate DifferentCities(cities: seq<Incoming>) {
    && (forall i | 0 <= i < |cities| :: cities[i].key != "")
    && (forall i, j | 0 <= i < j < |cities| :: !Same(cities[i], cities[j]))
  }

  /** Some imported city was written into the document under its key. */
  ghost predicate Written(cities: seq<Incoming>, keys: seq<string>, d: Doc)
    requires |keys| == |cities|
  {
    exists c :: 0 <= c < |cities| && d.key == keys[c] && WrittenFor(d, cities[c])
  }

  ghost predicate Untouched(docs0: seq<Doc>, docs: seq<Doc>, d: nat)
    requires d < |docs|
  {
    d < |docs0| && docs[d] == docs0[d]
  }

  /** The documents after `cities` were imported into `docs0` under `keys`. */
  ghost predicate DocsOk(docs0: seq<Doc>, cities: seq<Incoming>, keys: seq<string>, docs: seq<Doc>) {
    && |keys| == |cities| && |docs0| <= |docs| && Indexed(docs0) && Indexed(docs)
    && (forall d | 0 <= d < |docs| :: Untouched(docs0, docs, d) || Written(cities, keys, docs[d]))
    && (forall d | 0 <= d < |docs0| :: docs0[d].key != "" ==> docs[d].key == docs0[d].key)
    && (forall c | 0 <= c < |cities| :: keys[c] != "" && StoredFor(docs, keys[c], cities[c]))
  }

  /** Who a reservation made during the run stands for: a document as it was, or a city under a new key. */
  ghost predicate EntryOk(docs0: seq<Doc>, cities: seq<Incoming>, keys: seq<string>, docs: seq<Doc>, key: string,
                          r: Reservation)
    requires |keys| == |cities|
  {
    && key != "" && Held(docs, key)
    && (r.docId.Some? ==> r.docId.value < |docs| && docs[r.docId.value].key == key)
    && (if Held(docs0, key) then r == SnapshotOf(Holder(docs0, key), docs0[Holder(docs0, key)])
        else exists c :: 0 <= c < |cities| && StandsFor(r, cities[c]))
  }

  predicate StandsFor(r: Reservation, c: Incoming) {
    r.source == GEONAMES && r.sourceId == Some(c.sourceId) && r.name == c.name
  }

  ghost predicate CacheOk(docs0: seq<Doc>, cities: seq<Incoming>, keys: seq<string>, docs: seq<Doc>,
                          reserved: map<string, Reservation>)
    requires |keys| == |cities|
  {
    && (forall k | k in reserved :: EntryOk(docs0, cities, keys, docs, k, reserved[k]))
    && (forall c | 0 <= c < |cities| :: keys[c] in reserved)
  }

  // ---- Resolving ----

  ghost predicate Unkeyed(docs: seq<Doc>, existing: Option<nat>) {
    existing.Some? ==> existing.value < |docs| && docs[existing.value].key == ""
  }

  lemma HolderUnique(docs: seq<Doc>, i: nat)
    requires Indexed(docs) && i < |docs|
    ensures Held(docs, docs[i].key) && Holder(docs, docs[i].key) == i
  {
    assert Held(docs, docs[i].key);
    var h := Holder(docs, docs[i].key);
    if h < i { assert Clashes(docs[h], docs[i]); }
    if i < h { assert Clashes(docs[i], docs[h]); }
  }

  /** A reservation matches a later city exactly when the original holder of its key does. */
  lemma EntryMatches(docs0: seq<Doc>, cities: seq<Incoming>, keys: seq<string>, docs: seq<Doc>, key: string,
                     r: Reservation, existing: Option<nat>, c: Incoming)
    requires |keys| == |cities| && EntryOk(docs0, cities, keys, docs, key, r) && Unkeyed(docs, existing)
    requires forall i | 0 <= i < |cities| :: !Same(cities[i], c)
    ensures ReservationMatches(r, existing, c) <==> OriginalMatches(docs0, key, c)
  {
  }

  /** A key that is held but not reserved is held by the document that held it before the run. */
  lemma UnreservedHolder(docs0: seq<Doc>, cities: seq<Incoming>, keys: seq<string>, docs: seq<Doc>,
                         reserved: map<string, Reservation>, key: string)
    requires DocsOk(docs0, cities, keys, docs) && CacheOk(docs0, cities, keys, docs, reserved)
    requires key !in reserved && Held(docs, key) && key != ""
    ensures var h := Holder(docs, key);
      && h < |docs0| && docs[h] == docs0[h] && Held(docs0, key) && Holder(docs0, key) == h
      && EntryOk(docs0, cities, keys, docs, key, SnapshotOf(h, docs[h]))
  {
    var h := Holder(docs, key);
    assert Untouched(docs0, docs, h);
    HolderUnique(docs0, h);
  }

  /** What a resolution may leave in the cache: entries of the run so far, and the city itself under a free key. */
  ghost predicate NextEntry(docs0: seq<Doc>, cities: seq<Incoming>, keys: seq<string>, docs: seq<Doc>, key: string,
                            r: Reservation, existing: Option<nat>, c: Incoming, given: string)
    requires |keys| == |cities|
  {
    EntryOk(docs0, cities, keys, docs, key, r)
    || (key == given && !Held(docs, key) && r == Reservation(existing, GEONAMES, Some(c.sourceId), c.name))
  }

  ghost predicate NextCache(docs0: seq<Doc>, cities: seq<Incoming>, keys: seq<string>, docs: seq<Doc>,
                            reserved: map<string, Reservation>, existing: Option<nat>, c: Incoming, given: string)
    requires |keys| == |cities|
  {
    && (forall k | k in reserved :: NextEntry(docs0, cities, keys, docs, k, reserved[k], existing, c, given))
    && (forall i | 0 <= i < |cities| :: keys[i] in reserved)
    && given in reserved
  }

  /** Reservations, and the snapshots that would be made, match the city exactly when the original holder does. */
  ghost predicate Faithful(docs0: seq<Doc>, s: State, existing: Option<nat>, c: Incoming) {
    && (forall k | k in s.reserved ::
          Held(s.docs, k) && (ReservationMatches(s.reserved[k], existing, c) <==> OriginalMatches(docs0, k, c)))
    && (forall k | k !in s.reserved && k != "" && Held(s.docs, k) ::
          ReservationMatches(SnapshotOf(Holder(s.docs, k), s.docs[Holder(s.docs, k)]), existing, c)
          <==> OriginalMatches(docs0, k, c))
  }

  lemma IsFaithful(docs0: seq<Doc>, cities: seq<Incoming>, keys: seq<string>, s: State, existing: Option<nat>,
                   c: Incoming)
    requires DocsOk(docs0, cities, keys, s.docs) && CacheOk(docs0, cities, keys, s.docs, s.reserved)
    requires Unkeyed(s.docs, existing) && forall i | 0 <= i < |cities| :: !Same(cities[i], c)
    ensures Faithful(docs0, s, existing, c)
  {
    forall k | k in s.reserved
      ensures Held(s.docs, k) && (ReservationMatches(s.reserved[k], existing, c) <==> OriginalMatches(docs0, k, c))
    {
      EntryMatches(docs0, cities, keys, s.docs, k, s.reserved[k], existing, c);
    }
    forall k | k !in s.reserved && k != "" && Held(s.docs, k)
      ensures ReservationMatches(SnapshotOf(Holder(s.docs, k), s.docs[Holder(s.docs, k)]), existing, c)
        <==> OriginalMatches(docs0, k, c)
    {
      UnreservedHolder(docs0, cities, keys, s.docs, s.reserved, k);
      EntryMatches(docs0, cities, keys, s.docs, k, SnapshotOf(Holder(s.docs, k), s.docs[Holder(s.docs, k)]), existing,
                   c);
    }
  }

  /** The search through the cache stops at the first candidate that is free or originally matching. */
  lemma {:induction false} ResolveFromStops(docs0: seq<Doc>, s: State, existing: Option<nat>, c: Incoming, n: nat,
                                            limit: nat)
    requires Faithful(docs0, s, existing, c) && c.key != ""
    ensures match ResolveFrom(s, existing, c, n, limit)
      case Err(e) => FirstStop(docs0, s.docs, c, n, limit) == Err(e)
      case Ok((key, reserved)) => FirstStop(docs0, s.docs, c, n, limit) == Ok(key) && key != ""
    decreases limit + 1 - n
  {
    if n <= limit {
      var key := Candidate(c.key, n);
      CandidateNonEmpty(c.key, n);
      if key in s.reserved {
        if !OriginalMatches(docs0, key, c) { ResolveFromStops(docs0, s, existing, c, n + 1, limit); }
      } else if Held(s.docs, key) {
        var h := Holder(s.docs, key);
        if !OriginalMatches(docs0, key, c) {
          var noted := s.(reserved := s.reserved[key := SnapshotOf(h, s.docs[h])]);
          ResolveFromStops(docs0, noted, existing, c, n + 1, limit);
        }
      }
    }
  }

  lemma NotingKeepsCache(docs0: seq<Doc>, cities: seq<Incoming>, keys: seq<string>, s: State, key: string)
    requires DocsOk(docs0, cities, keys, s.docs) && CacheOk(docs0, cities, keys, s.docs, s.reserved)
    requires key !in s.reserved && key != "" && Held(s.docs, key)
    ensures var h := Holder(s.docs, key);
      CacheOk(docs0, cities, keys, s.docs, s.reserved[key := SnapshotOf(h, s.docs[h])])
  {
    UnreservedHolder(docs0, cities, keys, s.docs, s.reserved, key);
  }

  lemma TakingKeepsCache(docs0: seq<Doc>, cities: seq<Incoming>, keys: seq<string>, s: State, key: string,
                         existing: Option<nat>, c: Incoming)
    requires |keys| == |cities| && CacheOk(docs0, cities, keys, s.docs, s.reserved) && !Held(s.docs, key)
    ensures NextCache(docs0, cities, keys, s.docs,
                      s.reserved[key := Reservation(existing, GEONAMES, Some(c.sourceId), c.name)], existing, c, key)
  {
  }

  lemma KeepingKeepsCache(docs0: seq<Doc>, cities: seq<Incoming>, keys: seq<string>, docs: seq<Doc>,
                          reserved: map<string, Reservation>, key: string, existing: Option<nat>, c: Incoming)
    requires |keys| == |cities| && CacheOk(docs0, cities, keys, docs, reserved) && key in reserved
    ensures NextCache(docs0, cities, keys, docs, reserved, existing, c, key)
  {
  }

  /** And leaves a cache fit for the next city. */
  lemma {:induction false} ResolveFromKeepsCache(docs0: seq<Doc>, cities: seq<Incoming>, keys: seq<string>, s: State,
                                                 existing: Option<nat>, c: Incoming, n: nat, limit: nat)
    requires DocsOk(docs0, cities, keys, s.docs) && CacheOk(docs0, cities, keys, s.docs, s.reserved) && c.key != ""
    requires ResolveFrom(s, existing, c, n, limit).Ok?
    ensures NextCache(docs0, cities, keys, s.docs, ResolveFrom(s, existing, c, n, limit).value.1, existing, c,
                      ResolveFrom(s, existing, c, n, limit).value.0)
    decreases limit + 1 - n
  {
    var key := Candidate(c.key, n);
    CandidateNonEmpty(c.key, n);
    if key in s.reserved {
      if ReservationMatches(s.reserved[key], existing, c) {
        KeepingKeepsCache(docs0, cities, keys, s.docs, s.reserved, key, existing, c);
      } else {
        ResolveFromKeepsCache(docs0, cities, keys, s, existing, c, n + 1, limit);
      }
    } else if Held(s.docs, key) {
      var h := Holder(s.docs, key);
      var noted := s.(reserved := s.reserved[key := SnapshotOf(h, s.docs[h])]);
      NotingKeepsCache(docs0, cities, keys, s, key);
      if ReservationMatches(SnapshotOf(h, s.docs[h]), existing, c) {
        KeepingKeepsCache(docs0, cities, keys, s.docs, noted.reserved, key, existing, c);
      } else {
        ResolveFromKeepsCache(docs0, cities, keys, noted, existing, c, n + 1, limit);
      }
    } else {
      TakingKeepsCache(docs0, cities, keys, s, key, existing, c);
    }
  }

  // ---- One import ----

  lemma WrittenIsNotWanted(d: Doc, a: Incoming, b: Incoming)
    requires WrittenFor(d, a) && !Same(a, b)
    ensures !Wanted(d, b)
  {
  }

  /** A document found for a new city has not been touched by the run. */
  lemma FoundIsUntouched(docs0: seq<Doc>, cities: seq<Incoming>, keys: seq<string>, docs: seq<Doc>, c: Incoming, e: nat)
    requires DocsOk(docs0, cities, keys, docs) && e < |docs| && Wanted(docs[e], c)
    requires forall i | 0 <= i < |cities| :: !Same(cities[i], c)
    ensures Untouched(docs0, docs, e) && !Written(cities, keys, docs[e])
  {
    forall i | 0 <= i < |cities| && WrittenFor(docs[e], cities[i]) ensures false {
      WrittenIsNotWanted(docs[e], cities[i], c);
    }
  }

  lemma UpsertKeepsIndexes(docs: seq<Doc>, existing: Option<nat>, p: Doc)
    requires Indexed(docs) && (existing.Some? ==> existing.value < |docs|) && Upsert(docs, existing, p).Ok?
    ensures Upsert(docs, existing, p) == Ok(Stored(docs, existing, p)) && Indexed(Stored(docs, existing, p))
  {
    forall i | 0 <= i < |docs| && Some(i) != existing ensures !Clashes(docs[i], p) && !Clashes(p, docs[i]) {
    }
  }

  lemma WrittenCarries(cities: seq<Incoming>, keys: seq<string>, d: Doc, c: Incoming, key: string)
    requires |keys| == |cities| && Written(cities, keys, d)
    ensures Written(cities + [c], keys + [key], d)
  {
    var i :| 0 <= i < |cities| && d.key == keys[i] && WrittenFor(d, cities[i]);
    assert (keys + [key])[i] == keys[i] && (cities + [c])[i] == cities[i];
  }

  lemma StoredKeepsOrigins(docs0: seq<Doc>, cities: seq<Incoming>, keys: seq<string>, docs: seq<Doc>,
                           existing: Option<nat>, c: Incoming, p: Doc, d: nat)
    requires DocsOk(docs0, cities, keys, docs) && Found(docs, c, existing) && WrittenFor(p, c)
    requires d < |Stored(docs, existing, p)|
    ensures Untouched(docs0, Stored(docs, existing, p), d)
      || Written(cities + [c], keys + [p.key], Stored(docs, existing, p)[d])
  {
    var at := if existing.Some? then existing.value else |docs|;
    if d == at {
      var more, given := cities + [c], keys + [p.key];
      assert p.key == given[|cities|] && WrittenFor(p, more[|cities|]);
    } else if Written(cities, keys, docs[d]) {
      WrittenCarries(cities, keys, docs[d], c, p.key);
    }
  }

  lemma StoredKeepsStored(docs0: seq<Doc>, cities: seq<Incoming>, keys: seq<string>, docs: seq<Doc>,
                          existing: Option<nat>, c: Incoming, p: Doc, i: nat)
    requires DocsOk(docs0, cities, keys, docs) && Found(docs, c, existing) && i < |cities|
    requires forall k | 0 <= k < |cities| :: !Same(cities[k], c)
    ensures StoredFor(Stored(docs, existing, p), keys[i], cities[i])
  {
    assert StoredFor(docs, keys[i], cities[i]);
    var d :| 0 <= d < |docs| && docs[d].key == keys[i] && WrittenFor(docs[d], cities[i]);
    assert Written(cities, keys, docs[d]);
    if existing.Some? { FoundIsUntouched(docs0, cities, keys, docs, c, existing.value); }
    assert Stored(docs, existing, p)[d] == docs[d];
  }

  lemma StoredKeepsDocs(docs0: seq<Doc>, cities: seq<Incoming>, keys: seq<string>, docs: seq<Doc>,
                        existing: Option<nat>, c: Incoming, p: Doc)
    requires DocsOk(docs0, cities, keys, docs) && Found(docs, c, existing) && WrittenFor(p, c) && p.key != ""
    requires forall i | 0 <= i < |cities| :: !Same(cities[i], c)
    requires Unkeyed(docs, existing) || p.key == docs[existing.value].key
    requires Indexed(Stored(docs, existing, p))
    ensures DocsOk(docs0, cities + [c], keys + [p.key], Stored(docs, existing, p))
  {
    var after, more, given := Stored(docs, existing, p), cities + [c], keys + [p.key];
    var at := if existing.Some? then existing.value else |docs|;
    forall d | 0 <= d < |after| ensures Untouched(docs0, after, d) || Written(more, given, after[d]) {
      StoredKeepsOrigins(docs0, cities, keys, docs, existing, c, p, d);
    }
    forall i | 0 <= i < |more| ensures given[i] != "" && StoredFor(after, given[i], more[i]) {
      if i < |cities| {
        StoredKeepsStored(docs0, cities, keys, docs, existing, c, p, i);
      } else {
        assert after[at] == p;
      }
    }
  }

  lemma EntryCarries(docs0: seq<Doc>, cities: seq<Incoming>, keys: seq<string>, docs: seq<Doc>,
                     existing: Option<nat>, c: Incoming, p: Doc, k: string, r: Reservation)
    requires |keys| == |cities| && EntryOk(docs0, cities, keys, docs, k, r)
    requires existing.Some? ==> existing.value < |docs|
    requires Unkeyed(docs, existing) || p.key == docs[existing.value].key
    ensures EntryOk(docs0, cities + [c], keys + [p.key], Stored(docs, existing, p), k, r)
  {
    var after, more := Stored(docs, existing, p), cities + [c];
    var h := Holder(docs, k);
    assert after[h].key == k;
    if !Held(docs0, k) {
      var i :| 0 <= i < |cities| && StandsFor(r, cities[i]);
      assert more[i] == cities[i];
    }
  }

  lemma OwnEntry(docs0: seq<Doc>, cities: seq<Incoming>, keys: seq<string>, docs: seq<Doc>, existing: Option<nat>,
                 c: Incoming, p: Doc)
    requires DocsOk(docs0, cities, keys, docs) && (existing.Some? ==> existing.value < |docs|)
    requires p.key != "" && !Held(docs, p.key)
    ensures EntryOk(docs0, cities + [c], keys + [p.key], Stored(docs, existing, p), p.key,
                    Reservation(existing, GEONAMES, Some(c.sourceId), c.name))
  {
    var after, more := Stored(docs, existing, p), cities + [c];
    var at := if existing.Some? then existing.value else |docs|;
    assert after[at].key == p.key && more[|cities|] == c;
  }

  lemma StoredKeepsCache(docs0: seq<Doc>, cities: seq<Incoming>, keys: seq<string>, docs: seq<Doc>,
                         reserved: map<string, Reservation>, existing: Option<nat>, c: Incoming, p: Doc)
    requires DocsOk(docs0, cities, keys, docs) && (existing.Some? ==> existing.value < |docs|) && p.key != ""
    requires NextCache(docs0, cities, keys, docs, reserved, existing, c, p.key)
    requires Unkeyed(docs, existing) || p.key == docs[existing.value].key
    ensures CacheOk(docs0, cities + [c], keys + [p.key], Stored(docs, existing, p), reserved)
  {
    forall k | k in reserved
      ensures EntryOk(docs0, cities + [c], keys + [p.key], Stored(docs, existing, p), k, reserved[k])
    {
      assert NextEntry(docs0, cities, keys, docs, k, reserved[k], existing, c, p.key);
      if EntryOk(docs0, cities, keys, docs, k, reserved[k]) {
        EntryCarries(docs0, cities, keys, docs, existing, c, p, k, reserved[k]);
      } else {
        OwnEntry(docs0, cities, keys, docs, existing, c, p);
      }
    }
  }

  /** The key a city is given: that of the document found, otherwise the first stop. */
  function GivenKey(docs0: seq<Doc>, docs: seq<Doc>, existing: Option<nat>, c: Incoming, limit: nat): Result<string>
    requires existing.Some? ==> existing.value < |docs|
  {
    if existing.Some? && docs[existing.value].key != "" then Ok(docs[existing.value].key)
    else FirstStop(docs0, docs, c, 1, limit)
  }

  /** What a run has reached. */
  ghost predicate RunOk(docs0: seq<Doc>, cities: seq<Incoming>, keys: seq<string>, s: State) {
    DocsOk(docs0, cities, keys, s.docs) && CacheOk(docs0, cities, keys, s.docs, s.reserved)
  }

  ghost predicate NewCity(cities: seq<Incoming>, c: Incoming) {
    c.key != "" && forall i | 0 <= i < |cities| :: !Same(cities[i], c)
  }

  lemma ResolveExact(docs0: seq<Doc>, cities: seq<Incoming>, keys: seq<string>, s: State, existing: Option<nat>,
                     c: Incoming, limit: nat)
    requires RunOk(docs0, cities, keys, s) && NewCity(cities, c) && Found(s.docs, c, existing)
    ensures match Resolve(s, existing, c, limit)
      case Err(e) => GivenKey(docs0, s.docs, existing, c, limit) == Err(e)
      case Ok((key, reserved)) =>
        && GivenKey(docs0, s.docs, existing, c, limit) == Ok(key) && key != ""
        && NextCache(docs0, cities, keys, s.docs, reserved, existing, c, key)
  {
    if existing.Some? && s.docs[existing.value].key != "" {
      var e := existing.value;
      FoundIsUntouched(docs0, cities, keys, s.docs, c, e);
      HolderUnique(docs0, e);
      assert Held(s.docs, s.docs[e].key);
      var entry := SnapshotOf(e, s.docs[e]);
      assert EntryOk(docs0, cities, keys, s.docs, s.docs[e].key, entry);
    } else {
      IsFaithful(docs0, cities, keys, s, existing, c);
      ResolveFromStops(docs0, s, existing, c, 1, limit);
      if ResolveFrom(s, existing, c, 1, limit).Ok? {
        ResolveFromKeepsCache(docs0, cities, keys, s, existing, c, 1, limit);
      }
    }
  }

  lemma ImportOneKeepsRun(docs0: seq<Doc>, cities: seq<Incoming>, keys: seq<string>, s: State, existing: Option<nat>,
                          c: Incoming, limit: nat)
    requires RunOk(docs0, cities, keys, s) && NewCity(cities, c) && Found(s.docs, c, existing)
    requires ImportOne(s, c, existing, limit).Ok?
    ensures var r := ImportOne(s, c, existing, limit).value;
      RunOk(docs0, cities + [c], keys + [r.1], r.0)
  {
    ResolveExact(docs0, cities, keys, s, existing, c, limit);
    var (key, reserved) := Resolve(s, existing, c, limit).value;
    var p := Payload(s.docs, existing, c, key);
    UpsertKeepsIndexes(s.docs, existing, p);
    StoredKeepsDocs(docs0, cities, keys, s.docs, existing, c, p);
    StoredKeepsCache(docs0, cities, keys, s.docs, reserved, existing, c, p);
  }

  lemma NextIsNew(cities: seq<Incoming>, todo: seq<Incoming>)
    requires DifferentCities(cities + todo) && todo != []
    ensures NewCity(cities, todo[0])
  {
    var all := cities + todo;
    assert all[|cities|] == todo[0];
    forall i | 0 <= i < |cities| ensures !Same(cities[i], todo[0]) {
      assert all[i] == cities[i];
    }
  }

  lemma ImportAllUnfolds(s: State, todo: seq<Incoming>, lookup: Lookup, limit: nat)
    requires Answers(lookup) && todo != [] && ImportAll(s, todo, lookup, limit).Ok?
    ensures Found(s.docs, todo[0], lookup(s.docs, todo[0]))
    ensures var one := ImportOne(s, todo[0], lookup(s.docs, todo[0]), limit);
      && one.Ok?
      && var rest := ImportAll(one.value.0, todo[1..], lookup, limit);
         rest.Ok? && ImportAll(s, todo, lookup, limit) == Ok((rest.value.0, [one.value.1] + rest.value.1))
  {
    assert Found(s.docs, todo[0], lookup(s.docs, todo[0]));
  }

  lemma Regroup<T>(a: seq<T>, b: seq<T>)
    requires b != []
    ensures (a + [b[0]]) + b[1..] == a + b
  {
  }

  lemma {:induction false} ImportAllKeepsRun(docs0: seq<Doc>, cities: seq<Incoming>, keys: seq<string>, s: State,
                                             todo: seq<Incoming>, lookup: Lookup, limit: nat)
    requires Answers(lookup) && RunOk(docs0, cities, keys, s) && DifferentCities(cities + todo)
    requires ImportAll(s, todo, lookup, limit).Ok?
    ensures var r := ImportAll(s, todo, lookup, limit).value;
      RunOk(docs0, cities + todo, keys + r.1, r.0)
    decreases |todo|
  {
    if todo == [] {
      assert cities + todo == cities && keys + [] == keys;
    } else {
      var existing := lookup(s.docs, todo[0]);
      NextIsNew(cities, todo);
      ImportAllUnfolds(s, todo, lookup, limit);
      ImportOneKeepsRun(docs0, cities, keys, s, existing, todo[0], limit);
      var (next, key) := ImportOne(s, todo[0], existing, limit).value;
      Regroup(cities, todo);
      ImportAllKeepsRun(docs0, cities + [todo[0]], keys + [key], next, todo[1..], lookup, limit);
      Regroup(keys, ImportAll(s, todo, lookup, limit).value.1);
    }
  }

  /** Finished or stopped, the import leaves both unique indexes intact; finished, it has reached its result. */
  lemma {:induction false} ReachedKeepsIndexes(s: State, todo: seq<Incoming>, lookup: Lookup, limit: nat)
    requires Answers(lookup) && Indexed(s.docs)
    ensures Indexed(Reached(s, todo, lookup, limit).docs)
    ensures ImportAll(s, todo, lookup, limit).Ok? ==>
      ImportAll(s, todo, lookup, limit).value.0 == Reached(s, todo, lookup, limit)
    decreases |todo|
  {
    if todo != [] {
      var existing := lookup(s.docs, todo[0]);
      assert Found(s.docs, todo[0], existing);
      var one := ImportOne(s, todo[0], existing, limit);
      if one.Ok? {
        UpsertKeepsIndexes(s.docs, existing, Payload(s.docs, existing, todo[0], one.value.1));
        ReachedKeepsIndexes(one.value.0, todo[1..], lookup, limit);
      }
    }
  }

  lemma StartOk(docs: seq<Doc>)
    requires Indexed(docs)
    ensures RunOk(docs, [], [], State(docs, map[]))
  {
  }

  // ---- When a key is given twice ----

  /** The `m`-th candidate is held now, and not by right of a document of the city's identity. */
  predicate Blocked(docs0: seq<Doc>, docs: seq<Doc>, c: Incoming, m: nat) {
    Held(docs, Candidate(c.key, m)) && !OriginalMatches(docs0, Candidate(c.key, m), c)
  }

  ghost predicate FirstOpen(docs0: seq<Doc>, docs: seq<Doc>, c: Incoming, n: nat) {
    !Blocked(docs0, docs, c, n) && forall m | 1 <= m < n :: Blocked(docs0, docs, c, m)
  }

  lemma {:induction false} FirstStopIs(docs0: seq<Doc>, docs: seq<Doc>, c: Incoming, n: nat, limit: nat, from: nat)
    requires 1 <= from <= n <= limit && FirstOpen(docs0, docs, c, n)
    ensures FirstStop(docs0, docs, c, from, limit) == Ok(Candidate(c.key, n))
    decreases n - from
  {
    if from < n {
      assert Blocked(docs0, docs, c, from);
      FirstStopIs(docs0, docs, c, n, limit, from + 1);
    }
  }

  lemma {:induction false} FirstStopAt(docs0: seq<Doc>, docs: seq<Doc>, c: Incoming, from: nat, limit: nat)
    returns (n: nat)
    requires from >= 1 && FirstStop(docs0, docs, c, from, limit).Ok?
    requires forall m | 1 <= m < from :: Blocked(docs0, docs, c, m)
    ensures 1 <= n <= limit && FirstOpen(docs0, docs, c, n)
      && FirstStop(docs0, docs, c, from, limit) == Ok(Candidate(c.key, n))
    decreases limit + 1 - from
  {
    n := from;
    if Blocked(docs0, docs, c, from) { n := FirstStopAt(docs0, docs, c, from + 1, limit); }
  }

  /**
   * The `n`-th candidate was given to an earlier city and belonged, before the run, to a document of this
   * city's identity.
   */
  ghost predicate TakesOver(docs0: seq<Doc>, docs: seq<Doc>, keys: seq<string>, c: Incoming, n: nat) {
    && Candidate(c.key, n) in keys && OriginalMatches(docs0, Candidate(c.key, n), c)
    && forall m | 1 <= m < n :: Blocked(docs0, docs, c, m)
  }

  /** The city has no keyed document, and its first open candidate is an earlier city's key. */
  ghost predicate Collides(docs0: seq<Doc>, docs: seq<Doc>, keys: seq<string>, existing: Option<nat>, c: Incoming,
                           limit: nat) {
    Unkeyed(docs, existing) && exists n: nat :: 1 <= n <= limit && TakesOver(docs0, docs, keys, c, n)
  }

  predicate GivenAgain(s: State, keys: seq<string>, existing: Option<nat>, c: Incoming, limit: nat)
    requires existing.Some? ==> existing.value < |s.docs|
  {
    Resolve(s, existing, c, limit).Ok? && Resolve(s, existing, c, limit).value.0 in keys
  }

  /** The key of a document found for a new city is no earlier city's. */
  lemma FoundKeyIsOwn(docs0: seq<Doc>, cities: seq<Incoming>, keys: seq<string>, docs: seq<Doc>, c: Incoming, e: nat)
    requires DocsOk(docs0, cities, keys, docs) && NewCity(cities, c) && e < |docs| && Wanted(docs[e], c)
    ensures docs[e].key !in keys
  {
    FoundIsUntouched(docs0, cities, keys, docs, c, e);
    forall i | 0 <= i < |keys| ensures keys[i] != docs[e].key {
      assert StoredFor(docs, keys[i], cities[i]);
      var d :| 0 <= d < |docs| && docs[d].key == keys[i] && WrittenFor(docs[d], cities[i]);
      assert Written(cities, keys, docs[d]);
      HolderUnique(docs, d);
      HolderUnique(docs, e);
    }
  }

  lemma GivenKeysHeld(docs0: seq<Doc>, cities: seq<Incoming>, keys: seq<string>, docs: seq<Doc>, key: string)
    requires DocsOk(docs0, cities, keys, docs) && key in keys
    ensures Held(docs, key)
  {
    var i :| 0 <= i < |keys| && keys[i] == key;
    assert StoredFor(docs, keys[i], cities[i]);
  }

  /** At any moment of any run: the next city is given an earlier city's key exactly when the two collide. */
  lemma SameKeyIff(docs0: seq<Doc>, cities: seq<Incoming>, keys: seq<string>, s: State, existing: Option<nat>,
                   c: Incoming, limit: nat)
    requires RunOk(docs0, cities, keys, s) && NewCity(cities, c) && Found(s.docs, c, existing)
    ensures GivenAgain(s, keys, existing, c, limit) <==> Collides(docs0, s.docs, keys, existing, c, limit)
  {
    ResolveExact(docs0, cities, keys, s, existing, c, limit);
    if !Unkeyed(s.docs, existing) {
      FoundKeyIsOwn(docs0, cities, keys, s.docs, c, existing.value);
    } else {
      if GivenAgain(s, keys, existing, c, limit) {
        var n := FirstStopAt(docs0, s.docs, c, 1, limit);
        GivenKeysHeld(docs0, cities, keys, s.docs, Candidate(c.key, n));
        assert TakesOver(docs0, s.docs, keys, c, n);
      }
      if n: nat :| 1 <= n <= limit && TakesOver(docs0, s.docs, keys, c, n) {
        FirstStopIs(docs0, s.docs, c, n, limit, 1);
      }
    }
  }

  lemma HeldKeyConflicts(s: State, existing: Option<nat>, c: Incoming, limit: nat, key: string)
    requires Unkeyed(s.docs, existing) && Resolve(s, existing, c, limit).Ok?
      && Resolve(s, existing, c, limit).value.0 == key
    requires key != "" && Held(s.docs, key)
    ensures ImportOne(s, c, existing, limit) == Err(Conflict)
  {
    var h := Holder(s.docs, key);
    assert Some(h) != existing;
    assert Clashes(s.docs[h], Payload(s.docs, existing, c, key));
  }

  /** And then the unique index stops the import at that city. */
  lemma CollisionStops(docs0: seq<Doc>, cities: seq<Incoming>, keys: seq<string>, s: State, existing: Option<nat>,
                       c: Incoming, limit: nat)
    requires RunOk(docs0, cities, keys, s) && NewCity(cities, c) && Found(s.docs, c, existing)
    requires Unkeyed(s.docs, existing) && GivenAgain(s, keys, existing, c, limit)
    ensures ImportOne(s, c, existing, limit) == Err(Conflict)
  {
    var key := Resolve(s, existing, c, limit).value.0;
    GivenKeysHeld(docs0, cities, keys, s.docs, key);
    ResolveExact(docs0, cities, keys, s, existing, c, limit);
    HeldKeyConflicts(s, existing, c, limit, key);
  }

  /**
   * One import run over any stored documents and any cities with different identities, up to some city:
   * that city receives the key of an earlier one exactly when they collide, and then the import stops.
   */
  lemma RunSameKeyIff(docs: seq<Doc>, cities: seq<Incoming>, c: Incoming, lookup: Lookup, limit: nat)
    requires Answers(lookup) && Indexed(docs) && DifferentCities(cities + [c])
    requires ImportAll(State(docs, map[]), cities, lookup, limit).Ok?
    ensures var (s, keys) := ImportAll(State(docs, map[]), cities, lookup, limit).value;
      var existing := lookup(s.docs, c);
      && Found(s.docs, c, existing)
      && (GivenAgain(s, keys, existing, c, limit) <==> Collides(docs, s.docs, keys, existing, c, limit))
      && (Collides(docs, s.docs, keys, existing, c, limit) ==> ImportOne(s, c, existing, limit) == Err(Conflict))
  {
    var (s, keys) := ImportAll(State(docs, map[]), cities, lookup, limit).value;
    var existing := lookup(s.docs, c);
    assert Found(s.docs, c, existing);
    StartOk(docs);
    NextIsNew(cities, [c]);
    Earlier(cities, [c]);
    ImportAllKeepsRun(docs, [], [], State(docs, map[]), cities, lookup, limit);
    assert [] + cities == cities && [] + keys == keys;
    SameKeyIff(docs, cities, keys, s, existing, c, limit);
    if Collides(docs, s.docs, keys, existing, c, limit) {
      CollisionStops(docs, cities, keys, s, existing, c, limit);
    }
  }

  /**
   * What an import that goes through has stored: the city under its key, in place of the document found or as a
   * new one.
   */
  lemma ImportStores(s: State, c: Incoming, existing: Option<nat>, limit: nat)
    requires Found(s.docs, c, existing) && ImportOne(s, c, existing, limit).Ok?
    ensures var (next, key) := ImportOne(s, c, existing, limit).value;
      match existing
      case None => next.docs == s.docs + [Doc(key, "geonames", Some(c.sourceId), c.name, c.countryCode)]
      case Some(e) =>
        next.docs == s.docs[e := Doc(key, s.docs[e].source,
                                     if s.docs[e].source == "geonames" then Some(c.sourceId) else s.docs[e].sourceId,
                                     c.name, c.countryCode)]
  {
  }

  // ---- When an index stops a city ----

  /** Another GeoNames document carries the city's source id, and the one found is about to receive it. */
  ghost predicate SourceTaken(docs: seq<Doc>, existing: Option<nat>, c: Incoming) {
    && existing.Some? && existing.value < |docs| && docs[existing.value].source == GEONAMES
    && exists i ::
         0 <= i < |docs| && i != existing.value && docs[i].source == GEONAMES && docs[i].sourceId == Some(c.sourceId)
  }

  /**
   * No keyed document is found, and the first open candidate is held: a document of the city's identity had it
   * before.
   */
  ghost predicate KeyTaken(docs0: seq<Doc>, docs: seq<Doc>, existing: Option<nat>, c: Incoming, limit: nat) {
    Unkeyed(docs, existing)
    && exists n: nat :: 1 <= n <= limit && FirstOpen(docs0, docs, c, n) && Held(docs, Candidate(c.key, n))
  }

  lemma {:induction false} FirstStopFails(docs0: seq<Doc>, docs: seq<Doc>, c: Incoming, n: nat, limit: nat)
    ensures FirstStop(docs0, docs, c, n, limit).Err? ==> FirstStop(docs0, docs, c, n, limit) == Err(BadRequest)
    decreases limit + 1 - n
  {
    if n <= limit { FirstStopFails(docs0, docs, c, n + 1, limit); }
  }

  /** Where the search stops, the key is held exactly when it is taken. */
  lemma HeldIffTaken(docs0: seq<Doc>, docs: seq<Doc>, existing: Option<nat>, c: Incoming, limit: nat, key: string)
    requires Unkeyed(docs, existing) && FirstStop(docs0, docs, c, 1, limit) == Ok(key)
    ensures Held(docs, key) <==> KeyTaken(docs0, docs, existing, c, limit)
  {
    var at := FirstStopAt(docs0, docs, c, 1, limit);
    if n: nat :| 1 <= n <= limit && FirstOpen(docs0, docs, c, n) && Held(docs, Candidate(c.key, n)) {
      FirstStopIs(docs0, docs, c, n, limit, 1);
    }
  }

  ghost predicate ClashesElsewhere(docs: seq<Doc>, existing: Option<nat>, d: Doc) {
    exists i :: 0 <= i < |docs| && Some(i) != existing && Clashes(docs[i], d)
  }

  /** What is written for a city clashes with another document by its key or by its source id, and by nothing else. */
  lemma ClashesIff(docs: seq<Doc>, existing: Option<nat>, c: Incoming, key: string)
    requires Indexed(docs) && Found(docs, c, existing) && key != ""
    requires Unkeyed(docs, existing) || key == docs[existing.value].key
    ensures ClashesElsewhere(docs, existing, Payload(docs, existing, c, key))
       <==> SourceTaken(docs, existing, c) || (Unkeyed(docs, existing) && Held(docs, key))
  {
    var p := Payload(docs, existing, c, key);
    if Unkeyed(docs, existing) && Held(docs, key) {
      assert Some(Holder(docs, key)) != existing && Clashes(docs[Holder(docs, key)], p);
    }
    if SourceTaken(docs, existing, c) {
      var i :| 0 <= i < |docs| && i != existing.value && docs[i].source == GEONAMES
        && docs[i].sourceId == Some(c.sourceId);
      assert Some(i) != existing && Clashes(docs[i], p);
    }
    if ClashesElsewhere(docs, existing, p) {
      var i :| 0 <= i < |docs| && Some(i) != existing && Clashes(docs[i], p);
      ClashHasCause(docs, existing, c, key, i);
    }
  }

  lemma ClashHasCause(docs: seq<Doc>, existing: Option<nat>, c: Incoming, key: string, i: nat)
    requires Indexed(docs) && Found(docs, c, existing) && key != "" && i < |docs| && Some(i) != existing
    requires Unkeyed(docs, existing) || key == docs[existing.value].key
    requires Clashes(docs[i], Payload(docs, existing, c, key))
    ensures SourceTaken(docs, existing, c) || (Unkeyed(docs, existing) && Held(docs, key))
  {
    match existing
    case None =>
      assert !Wanted(docs[i], c);
    case Some(e) =>
      assert !Clashes(docs[i], docs[e]) by {
        if i < e { assert !Clashes(docs[i], docs[e]); } else { assert !Clashes(docs[e], docs[i]); }
      }
  }

  /**
   * At any moment of any run, the next city is stopped by an index exactly when it is given a key and the
   * key or the city's source id is taken, and is given up exactly when there is no key to give.
   */
  lemma StopsIff(docs0: seq<Doc>, cities: seq<Incoming>, keys: seq<string>, s: State, existing: Option<nat>,
                 c: Incoming, limit: nat)
    requires RunOk(docs0, cities, keys, s) && NewCity(cities, c) && Found(s.docs, c, existing)
    ensures ImportOne(s, c, existing, limit) == Err(Conflict)
       <==> GivenKey(docs0, s.docs, existing, c, limit).Ok?
            && (SourceTaken(s.docs, existing, c) || KeyTaken(docs0, s.docs, existing, c, limit))
    ensures ImportOne(s, c, existing, limit) == Err(BadRequest) <==> GivenKey(docs0, s.docs, existing, c, limit).Err?
    ensures ImportOne(s, c, existing, limit).Err? ==> ImportOne(s, c, existing, limit).error in {Conflict, BadRequest}
  {
    ResolveExact(docs0, cities, keys, s, existing, c, limit);
    FirstStopFails(docs0, s.docs, c, 1, limit);
    var given := GivenKey(docs0, s.docs, existing, c, limit);
    if given.Ok? {
      ClashesIff(s.docs, existing, c, given.value);
      if Unkeyed(s.docs, existing) { HeldIffTaken(docs0, s.docs, existing, c, limit, given.value); }
    }
  }

  /** The next city of a run over any stored documents and any cities with different identities. */
  lemma RunStopsIff(docs: seq<Doc>, cities: seq<Incoming>, c: Incoming, lookup: Lookup, limit: nat)
    requires Answers(lookup) && Indexed(docs) && DifferentCities(cities + [c])
    requires ImportAll(State(docs, map[]), cities, lookup, limit).Ok?
    ensures var s := ImportAll(State(docs, map[]), cities, lookup, limit).value.0;
      var existing := lookup(s.docs, c);
      && Found(s.docs, c, existing)
      && (ImportOne(s, c, existing, limit) == Err(Conflict) <==>
            GivenKey(docs, s.docs, existing, c, limit).Ok?
            && (SourceTaken(s.docs, existing, c) || KeyTaken(docs, s.docs, existing, c, limit)))
      && (ImportOne(s, c, existing, limit) == Err(BadRequest) <==> GivenKey(docs, s.docs, existing, c, limit).Err?)
  {
    var (s, keys) := ImportAll(State(docs, map[]), cities, lookup, limit).value;
    assert Found(s.docs, c, lookup(s.docs, c));
    StartOk(docs);
    NextIsNew(cities, [c]);
    Earlier(cities, [c]);
    ImportAllKeepsRun(docs, [], [], State(docs, map[]), cities, lookup, limit);
    assert [] + cities == cities && [] + keys == keys;
    StopsIff(docs, cities, keys, s, lookup(s.docs, c), c, limit);
  }

  /** The first city of a run, or the only one, over any stored documents. */
  lemma FirstImportConflictsIff(docs: seq<Doc>, c: Incoming, lookup: Lookup, limit: nat)
    requires Answers(lookup) && Indexed(docs) && c.key != ""
    ensures Found(docs, c, lookup(docs, c))
    ensures ImportAll(State(docs, map[]), [c], lookup, limit) == Err(Conflict)
       <==> GivenKey(docs, docs, lookup(docs, c), c, limit).Ok?
            && (SourceTaken(docs, lookup(docs, c), c) || KeyTaken(docs, docs, lookup(docs, c), c, limit))
  {
    ImportJust(State(docs, map[]), c, lookup, limit);
    StartOk(docs);
    StopsIff(docs, [], [], State(docs, map[]), lookup(docs, c), c, limit);
  }

  /** Every one of the first `limit` candidates is held by a document that does not share the city's identity. */
  lemma {:induction false} NoStopIff(docs0: seq<Doc>, docs: seq<Doc>, c: Incoming, n: nat, limit: nat)
    requires n >= 1
    ensures FirstStop(docs0, docs, c, n, limit).Err? <==> forall m | n <= m <= limit :: Blocked(docs0, docs, c, m)
    decreases limit + 1 - n
  {
    if n <= limit && Blocked(docs0, docs, c, n) { NoStopIff(docs0, docs, c, n + 1, limit); }
  }

  /** A city alone is given up exactly when no keyed document is found for it and 200 candidates are all taken. */
  lemma GivenUpIff(docs: seq<Doc>, c: Incoming, lookup: Lookup)
    requires Answers(lookup) && Indexed(docs) && c.key != ""
    ensures Found(docs, c, lookup(docs, c))
    ensures ImportRun(docs, [c], lookup) == Err(BadRequest)
       <==> Unkeyed(docs, lookup(docs, c)) && forall m | 1 <= m <= 200 :: Blocked(docs, docs, c, m)
  {
    var limit := MAX_SUFFIX;
    ImportJust(State(docs, map[]), c, lookup, limit);
    StartOk(docs);
    StopsIff(docs, [], [], State(docs, map[]), lookup(docs, c), c, limit);
    NoStopIff(docs, docs, c, 1, limit);
  }

  /** With one stored city: it has the wanted key and the same name up to case, but is not what the lookup asks for. */
  lemma SingleImportConflictsIff(d: Doc, c: Incoming, lookup: Lookup, limit: nat)
    requires Answers(lookup) && limit >= 2 && c.key != ""
    ensures ImportAll(State([d], map[]), [c], lookup, limit) == Err(Conflict)
       <==>
         && d.key == c.key && Fold(d.name) == Fold(c.name)
         && !(d.source == "geonames" && d.sourceId == Some(c.sourceId))
         && !(d.countryCode == c.countryCode && d.name == c.name)
  {
    FirstImportConflictsIff([d], c, lookup, limit);
    AnswerForced(lookup, d, c);
    if Wanted(d, c) {
      forall n: nat | Held([d], Candidate(c.key, n)) ensures d.key != "" {
        CandidateNonEmpty(c.key, n);
      }
    } else {
      OneHolder(d, c, limit);
    }
  }

  /** The only document is a candidate's holder: then it is the first candidate's, or no candidate before it is open. */
  lemma OneHolder(d: Doc, c: Incoming, limit: nat)
    requires limit >= 2 && c.key != ""
    ensures FirstStop([d], [d], c, 1, limit).Ok?
    ensures KeyTaken([d], [d], None, c, limit) <==> DocMatches(d, c) && d.key == c.key
  {
    assert [d][0] == d && Candidate(c.key, 1) == c.key && |Candidate(c.key, 2)| > |c.key|;
    forall m: nat ensures Held([d], Candidate(c.key, m)) <==> d.key == Candidate(c.key, m) {
    }
    assert Blocked([d], [d], c, 1) <==> d.key == c.key && !DocMatches(d, c);
    if Blocked([d], [d], c, 1) {
      FirstStopIs([d], [d], c, 2, limit, 1);
    } else {
      FirstStopIs([d], [d], c, 1, limit, 1);
    }
    forall n: nat | n > 1 && FirstOpen([d], [d], c, n) ensures d.key == c.key && !Held([d], Candidate(c.key, n)) {
      assert Blocked([d], [d], c, 1);
      assert !Blocked([d], [d], c, n);
      assert DocMatches(d, c) || !Held([d], Candidate(c.key, n));
    }
    if DocMatches(d, c) && d.key == c.key {
      assert FirstOpen([d], [d], c, 1) && Held([d], Candidate(c.key, 1));
    }
  }

  /**
   * With two stored cities: one fits by source id, another by country and name; when the lookup returns the
   * second, it is about to receive the source id of the first. No document has the wanted key.
   */
  lemma TakenSourceWitness()
    ensures var docs := [Doc("x", GEONAMES, Some("1"), "Foo", "DE"), Doc("y", GEONAMES, Some("2"), "Bar", "DE")];
      var c := Incoming("bar", "1", "Bar", "DE");
      && Indexed(docs) && Found(docs, c, Some(1)) && !Held(docs, c.key)
      && ImportOne(State(docs, map[]), c, Some(1), MAX_SUFFIX) == Err(Conflict)
  {
    var docs := [Doc("x", GEONAMES, Some("1"), "Foo", "DE"), Doc("y", GEONAMES, Some("2"), "Bar", "DE")];
    assert Clashes(docs[0], Payload(docs, Some(1), Incoming("bar", "1", "Bar", "DE"), "y"));
  }

  lemma Earlier(cities: seq<Incoming>, rest: seq<Incoming>)
    requires DifferentCities(cities + rest)
    ensures DifferentCities([] + cities)
  {
    var all := cities + rest;
    assert forall i | 0 <= i < |cities| :: all[i] == cities[i];
  }

  /** So a run that is not stopped gives every city a key of its own, clean input or not. */
  lemma CompletedRunDistinct(docs: seq<Doc>, cities: seq<Incoming>, lookup: Lookup, limit: nat)
    requires Answers(lookup) && Indexed(docs) && DifferentCities(cities)
    requires ImportAll(State(docs, map[]), cities, lookup, limit).Ok?
    ensures Assigned(ImportAll(State(docs, map[]), cities, lookup, limit).value.0.docs, cities,
                     ImportAll(State(docs, map[]), cities, lookup, limit).value.1)
  {
    var (s, keys) := ImportAll(State(docs, map[]), cities, lookup, limit).value;
    StartOk(docs);
    assert [] + cities == cities && [] + keys == keys;
    ImportAllKeepsRun(docs, [], [], State(docs, map[]), cities, lookup, limit);
    forall i, j | 0 <= i < j < |keys| ensures keys[i] != keys[j] {
      KeysDiffer(docs, cities, keys, s.docs, i, j);
    }
  }

  lemma KeysDiffer(docs0: seq<Doc>, cities: seq<Incoming>, keys: seq<string>, docs: seq<Doc>, i: nat, j: nat)
    requires DocsOk(docs0, cities, keys, docs) && i < j < |cities| && !Same(cities[i], cities[j])
    ensures keys[i] != keys[j]
  {
    assert StoredFor(docs, keys[i], cities[i]) && StoredFor(docs, keys[j], cities[j]);
    var d :| 0 <= d < |docs| && docs[d].key == keys[i] && WrittenFor(docs[d], cities[i]);
    var e :| 0 <= e < |docs| && docs[e].key == keys[j] && WrittenFor(docs[e], cities[j]);
    HolderUnique(docs, d);
    HolderUnique(docs, e);
  }

  // ---- Two cities ----

  /**
   * `b` takes over the key of document `i`: `a` was given that document, `b` shares its old identity, nothing
   * keyed is found for `b`, and the key is the first of `b`'s candidates that no document of another identity holds.
   */
  ghost predicate TakesDocument(docs: seq<Doc>, a: Incoming, b: Incoming, after: seq<Doc>, lookup: Lookup, limit: nat,
                                i: nat) {
    && i < |docs| && lookup(docs, a) == Some(i) && docs[i].key != "" && DocMatches(docs[i], b)
    && Unkeyed(after, lookup(after, b))
    && exists n: nat :: 1 <= n <= limit && FirstForeign(docs, b, docs[i].key, n)
  }

  /** `key` is the `n`-th candidate, and the ones before are held by documents that do not match. */
  ghost predicate FirstForeign(docs: seq<Doc>, c: Incoming, key: string, n: nat) {
    Candidate(c.key, n) == key && forall m | 1 <= m < n :: Blocked(docs, docs, c, m)
  }

  /** Where the first city had a free key, its key was held by no document before. */
  lemma FirstKeyOrigin(docs: seq<Doc>, a: Incoming, existing: Option<nat>, limit: nat)
    requires Indexed(docs) && a.key != "" && Found(docs, a, existing)
      && ImportOne(State(docs, map[]), a, existing, limit).Ok?
    ensures var (s, key) := ImportOne(State(docs, map[]), a, existing, limit).value;
      && (Held(docs, key) <==> existing.Some? && docs[existing.value].key != "")
      && (Held(docs, key) ==> existing == Some(Holder(docs, key)))
      && (forall k :: Held(s.docs, k) && k != "" <==> (Held(docs, k) && k != "") || k == key)
  {
    StartOk(docs);
    var start := State(docs, map[]);
    var (s, key) := ImportOne(start, a, existing, limit).value;
    ResolveExact(docs, [], [], start, existing, a, limit);
    var p := Payload(docs, existing, a, key);
    UpsertKeepsIndexes(docs, existing, p);
    if existing.Some? && docs[existing.value].key != "" {
      HolderUnique(docs, existing.value);
    } else if Held(docs, key) {
      HeldKeyConflicts(start, existing, a, limit, key);
    }
    KeysAfter(docs, existing, p);
  }

  lemma KeysAfter(docs: seq<Doc>, existing: Option<nat>, p: Doc)
    requires existing.Some? ==> existing.value < |docs|
    requires Unkeyed(docs, existing) || p.key == docs[existing.value].key
    requires p.key != ""
    ensures forall k :: Held(Stored(docs, existing, p), k) && k != "" <==> (Held(docs, k) && k != "") || k == p.key
  {
    var after := Stored(docs, existing, p);
    var at := if existing.Some? then existing.value else |docs|;
    assert after[at] == p;
    forall k ensures Held(after, k) && k != "" <==> (Held(docs, k) && k != "") || k == p.key {
      if Held(docs, k) && k != "" {
        var h := Holder(docs, k);
        assert after[h].key == k;
      }
      if Held(after, k) && k != p.key {
        var h := Holder(after, k);
        assert docs[h].key == k;
      }
    }
  }

  lemma BlockedSame(docs: seq<Doc>, after: seq<Doc>, key: string, c: Incoming, m: nat)
    requires c.key != "" && Held(docs, key)
    requires forall k :: Held(after, k) && k != "" <==> (Held(docs, k) && k != "") || k == key
    ensures Blocked(docs, after, c, m) <==> Blocked(docs, docs, c, m)
  {
    CandidateNonEmpty(c.key, m);
    assert Held(after, Candidate(c.key, m)) <==> Held(docs, Candidate(c.key, m));
  }

  lemma TakeoverIffForeign(docs: seq<Doc>, after: seq<Doc>, key: string, c: Incoming, n: nat)
    requires Indexed(docs) && c.key != "" && Held(docs, key)
    requires forall k :: Held(after, k) && k != "" <==> (Held(docs, k) && k != "") || k == key
    ensures TakesOver(docs, after, [key], c, n)
       <==> DocMatches(docs[Holder(docs, key)], c) && FirstForeign(docs, c, key, n)
  {
    forall m | 1 <= m < n ensures Blocked(docs, after, c, m) <==> Blocked(docs, docs, c, m) {
      BlockedSame(docs, after, key, c, m);
    }
  }

  /**
   * Two cities with different identities, one after the other, over any stored documents: the second is
   * given the key of the first exactly when it takes over a document the first was given.
   */
  lemma TwoCitiesSameKeyIff(docs: seq<Doc>, a: Incoming, b: Incoming, lookup: Lookup, limit: nat)
    requires Answers(lookup) && Indexed(docs) && !Same(a, b) && a.key != "" && b.key != ""
    requires Found(docs, a, lookup(docs, a)) && ImportOne(State(docs, map[]), a, lookup(docs, a), limit).Ok?
    ensures var (s, key) := ImportOne(State(docs, map[]), a, lookup(docs, a), limit).value;
      && Found(s.docs, b, lookup(s.docs, b))
      && (GivenAgain(s, [key], lookup(s.docs, b), b, limit)
          <==> exists i: nat :: TakesDocument(docs, a, b, s.docs, lookup, limit, i))
  {
    var first := lookup(docs, a);
    var (s, key) := ImportOne(State(docs, map[]), a, first, limit).value;
    var second := lookup(s.docs, b);
    assert Found(s.docs, b, second);
    StartOk(docs);
    ImportOneKeepsRun(docs, [], [], State(docs, map[]), first, a, limit);
    assert [] + [a] == [a] && [] + [key] == [key];
    SameKeyIff(docs, [a], [key], s, second, b, limit);
    FirstKeyOrigin(docs, a, first, limit);
    CollidesIffTakes(docs, a, b, s.docs, key, lookup, limit);
  }

  lemma CollidesIffTakes(docs: seq<Doc>, a: Incoming, b: Incoming, after: seq<Doc>, key: string, lookup: Lookup,
                         limit: nat)
    requires Indexed(docs) && b.key != "" && key != "" && Found(docs, a, lookup(docs, a))
    requires Held(docs, key) <==> lookup(docs, a).Some? && docs[lookup(docs, a).value].key != ""
    requires Held(docs, key) ==> lookup(docs, a) == Some(Holder(docs, key))
    requires forall k :: Held(after, k) && k != "" <==> (Held(docs, k) && k != "") || k == key
    ensures Collides(docs, after, [key], lookup(after, b), b, limit)
       <==> exists i: nat :: TakesDocument(docs, a, b, after, lookup, limit, i)
  {
    if Held(docs, key) {
      var h := Holder(docs, key);
      forall n: nat
        ensures TakesOver(docs, after, [key], b, n) <==> DocMatches(docs[h], b) && FirstForeign(docs, b, key, n)
      {
        TakeoverIffForeign(docs, after, key, b, n);
      }
      if n: nat :| 1 <= n <= limit && TakesOver(docs, after, [key], b, n) {
        assert FirstForeign(docs, b, docs[h].key, n);
      }
      assert Collides(docs, after, [key], lookup(after, b), b, limit)
        <==> TakesDocument(docs, a, b, after, lookup, limit, h);
    }
  }

  /**
   * One stored document: the second city gets the first one's key exactly when it can be read off the three
   * records.
   */
  lemma OneDocumentSameKeyIff(d: Doc, a: Incoming, b: Incoming, lookup: Lookup, limit: nat)
    requires Answers(lookup) && !Same(a, b) && a.key != "" && b.key != "" && limit >= 1
    ensures Found([d], a, lookup([d], a))
    ensures var first := ImportOne(State([d], map[]), a, lookup([d], a), limit);
      (first.Ok? && Found(first.value.0.docs, b, lookup(first.value.0.docs, b))
       && GivenAgain(first.value.0, [first.value.1], lookup(first.value.0.docs, b), b, limit))
      <==>
        && ((d.source == "geonames" && d.sourceId == Some(a.sourceId))
            || (d.countryCode == a.countryCode && d.name == a.name))
        && ((d.source == "geonames" && d.sourceId == Some(b.sourceId)) || Fold(d.name) == Fold(b.name))
        && b.key == d.key
  {
    AnswerForced(lookup, d, a);
    assert Found([d], a, lookup([d], a)) && Indexed([d]);
    var first := ImportOne(State([d], map[]), a, lookup([d], a), limit);
    if Wanted(d, a) { FoundIsOverwritten(d, a, limit); }
    if first.Ok? {
      TwoCitiesSameKeyIff([d], a, b, lookup, limit);
      OneDocumentTakes(d, a, b, lookup, limit);
    }
  }

  lemma OneDocumentTakes(d: Doc, a: Incoming, b: Incoming, lookup: Lookup, limit: nat)
    requires Answers(lookup) && !Same(a, b) && a.key != "" && b.key != "" && limit >= 1
    requires Found([d], a, lookup([d], a)) && ImportOne(State([d], map[]), a, lookup([d], a), limit).Ok?
    ensures var after := ImportOne(State([d], map[]), a, lookup([d], a), limit).value.0.docs;
      (exists i: nat :: TakesDocument([d], a, b, after, lookup, limit, i))
        <==> Wanted(d, a) && DocMatches(d, b) && b.key == d.key
  {
    var after := ImportOne(State([d], map[]), a, lookup([d], a), limit).value.0.docs;
    AnswerForced(lookup, d, a);
    if Wanted(d, a) && d.key != "" {
      var p := Payload([d], Some(0), a, d.key);
      FoundIsOverwritten(d, a, limit);
      assert after == [p];
      AnswerForced(lookup, p, b);
      WrittenIsNotWanted(p, a, b);
    }
    if DocMatches(d, b) {
      forall n: nat | n >= 1 ensures FirstForeign([d], b, d.key, n) <==> n == 1 && b.key == d.key {
        OneCandidate(d, b, n);
      }
    }
    if Wanted(d, a) && DocMatches(d, b) && b.key == d.key {
      assert FirstForeign([d], b, d.key, 1);
      assert TakesDocument([d], a, b, after, lookup, limit, 0);
    }
  }

  lemma OneCandidate(d: Doc, b: Incoming, n: nat)
    requires n >= 1 && DocMatches(d, b)
    ensures FirstForeign([d], b, d.key, n) <==> n == 1 && b.key == d.key
  {
    assert Candidate(b.key, 1) == b.key;
    assert !Blocked([d], [d], b, 1) by {
      if Held([d], b.key) { assert Holder([d], b.key) == 0; }
    }
  }
}
