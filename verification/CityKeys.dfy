/**
 * Key assignment of one city import: a cache of key reservations in front of the stored cities, the
 * upserts that follow it, and when the two together keep every key unique.
 */
module CityKeys {
  import opened Common
  import opened CityDedupe

  const GEONAMES := "geonames"
  const MAX_SUFFIX: nat := 200

  /** A deduplicated city about to be imported; its source is always GeoNames. */
  datatype Incoming = Incoming(key: string, sourceId: string, name: string, countryCode: string)

  /** A stored city, known by its position; an empty key or name stands for a missing one. */
  datatype Doc = Doc(key: string, source: string, sourceId: Option<string>, name: string, countryCode: string)

  /** Who a key is reserved for, as it was when the reservation was made. */
  datatype Reservation = Reservation(docId: Option<nat>, source: string, sourceId: Option<string>, name: string)

  datatype State = State(docs: seq<Doc>, reserved: map<string, Reservation>)

  // ---- Matching ----

  function SnapshotOf(id: nat, d: Doc): Reservation { Reservation(Some(id), d.source, d.sourceId, d.name) }

  predicate SameIdentity(source: string, sourceId: Option<string>, name: string, c: Incoming) {
    (source == GEONAMES && sourceId == Some(c.sourceId)) || Fold(name) == Fold(c.name)
  }

  predicate ReservationMatches(r: Reservation, docId: Option<nat>, c: Incoming) {
    (r.docId.Some? && r.docId == docId) || SameIdentity(r.source, r.sourceId, r.name, c)
  }

  /** What the lookup before the import of a city asks for. */
  predicate Wanted(d: Doc, c: Incoming) {
    (d.source == GEONAMES && d.sourceId == Some(c.sourceId)) || (d.countryCode == c.countryCode && d.name == c.name)
  }

  /** A possible answer to that lookup, which may return any document that fits. */
  predicate Found(docs: seq<Doc>, c: Incoming, existing: Option<nat>) {
    match existing
    case Some(id) => id < |docs| && Wanted(docs[id], c)
    case None => forall i | 0 <= i < |docs| :: !Wanted(docs[i], c)
  }

  predicate Held(docs: seq<Doc>, key: string) {
    exists i :: 0 <= i < |docs| && docs[i].key == key
  }

  function Holder(docs: seq<Doc>, key: string): (i: nat)
    requires Held(docs, key)
    ensures i < |docs| && docs[i].key == key
  {
    if docs[0].key == key then 0
    else
      assert Held(docs[1..], key) by { HeldInRest(docs, key); }
      1 + Holder(docs[1..], key)
  }

  lemma HeldInRest(docs: seq<Doc>, key: string)
    requires Held(docs, key) && docs[0].key != key
    ensures Held(docs[1..], key)
  {
    var i :| 0 <= i < |docs| && docs[i].key == key;
    assert docs[1..][i - 1].key == key;
  }

  // ---- Resolving a key ----

  function Decimal(n: nat): string {
    if n < 10 then [('0' as int + n) as char] else Decimal(n / 10) + [('0' as int + n % 10) as char]
  }

  function Candidate(base: string, n: nat): string { if n == 1 then base else base + "_" + Decimal(n) }

  function Value(digits: string): nat
    requires forall i | 0 <= i < |digits| :: '0' <= digits[i] <= '9'
  {
    if digits == "" then 0 else 10 * Value(digits[..|digits| - 1]) + (digits[|digits| - 1] as int - '0' as int)
  }

  /** The suffix is the number in decimal, without leading zeros. */
  lemma {:induction false} DecimalRoundTrip(n: nat)
    ensures Decimal(n) != "" && forall i | 0 <= i < |Decimal(n)| :: '0' <= Decimal(n)[i] <= '9'
    ensures Value(Decimal(n)) == n && (n > 0 ==> Decimal(n)[0] != '0')
  {
    if n >= 10 {
      DecimalRoundTrip(n / 10);
      assert Decimal(n)[..|Decimal(n)| - 1] == Decimal(n / 10);
    } else {
      assert Decimal(n)[..0] == "";
    }
  }

  /** So the candidates are the wanted key, then the key with `_2`, `_3` and so on, and no two are equal. */
  lemma CandidatesDiffer(base: string, m: nat, n: nat)
    requires 1 <= m < n
    ensures Candidate(base, 1) == base && Candidate(base, n) == base + "_" + Decimal(n)
    ensures Candidate(base, m) != Candidate(base, n)
  {
    DecimalRoundTrip(m);
    DecimalRoundTrip(n);
    if m == 1 {
      assert |Candidate(base, n)| > |base|;
    } else {
      assert Candidate(base, m)[|base| + 1..] == Decimal(m) && Candidate(base, n)[|base| + 1..] == Decimal(n);
    }
  }

  /** The candidates from the `n`-th on, each looked up first among the reservations, then among the documents. */
  function ResolveFrom(s: State, existing: Option<nat>, c: Incoming, n: nat,
                       limit: nat): Result<(string, map<string, Reservation>)>
    decreases limit + 1 - n
  {
    if n > limit then Err(BadRequest)
    else
      var key := Candidate(c.key, n);
      if key in s.reserved then
        if ReservationMatches(s.reserved[key], existing, c) then Ok((key, s.reserved))
        else ResolveFrom(s, existing, c, n + 1, limit)
      else if !Held(s.docs, key) then
        Ok((key, s.reserved[key := Reservation(existing, GEONAMES, Some(c.sourceId), c.name)]))
      else
        var id := Holder(s.docs, key);
        var snapshot := SnapshotOf(id, s.docs[id]);
        var noted := s.(reserved := s.reserved[key := snapshot]);
        if ReservationMatches(snapshot, existing, c) then Ok((key, noted.reserved))
        else ResolveFrom(noted, existing, c, n + 1, limit)
  }

  function Resolve(s: State, existing: Option<nat>, c: Incoming, limit: nat): Result<(string, map<string, Reservation>)>
    requires existing.Some? ==> existing.value < |s.docs|
  {
    if existing.Some? && s.docs[existing.value].key != "" then
      var d := s.docs[existing.value];
      Ok((d.key, s.reserved[d.key := SnapshotOf(existing.value, d)]))
    else ResolveFrom(s, existing, c, 1, limit)
  }

  // ---- Writing ----

  function Payload(docs: seq<Doc>, existing: Option<nat>, c: Incoming, key: string): Doc
    requires existing.Some? ==> existing.value < |docs|
  {
    if existing.Some? && docs[existing.value].source != GEONAMES
    then Doc(key, docs[existing.value].source, docs[existing.value].sourceId, c.name, c.countryCode)
    else Doc(key, GEONAMES, Some(c.sourceId), c.name, c.countryCode)
  }

  /** The two unique indexes of the collection. */
  predicate Clashes(a: Doc, b: Doc) {
    a.key == b.key || (a.sourceId.Some? && a.source == b.source && a.sourceId == b.sourceId)
  }

  ghost predicate Indexed(docs: seq<Doc>) {
    forall i, j | 0 <= i < j < |docs| :: !Clashes(docs[i], docs[j])
  }

  function Upsert(docs: seq<Doc>, existing: Option<nat>, d: Doc): Result<seq<Doc>>
    requires existing.Some? ==> existing.value < |docs|
  {
    if exists i :: 0 <= i < |docs| && Some(i) != existing && Clashes(docs[i], d) then Err(Conflict)
    else if existing.Some? then Ok(docs[existing.value := d])
    else Ok(docs + [d])
  }

  /** One city, given the document its lookup returned: its key and what is stored afterwards. */
  function ImportOne(s: State, c: Incoming, existing: Option<nat>, limit: nat): Result<(State, string)>
    requires existing.Some? ==> existing.value < |s.docs|
  {
    match Resolve(s, existing, c, limit)
    case Err(e) => Err(e)
    case Ok((key, reserved)) =>
      match Upsert(s.docs, existing, Payload(s.docs, existing, c, key))
      case Err(e) => Err(e)
      case Ok(docs) => Ok((State(docs, reserved), key))
  }

  // ---- What the cache should amount to ----

  /** The first candidate from the `n`-th on that no document holds. */
  function FirstFree(docs: seq<Doc>, base: string, n: nat, limit: nat): Result<string>
    decreases limit + 1 - n
  {
    if n > limit then Err(BadRequest)
    else if !Held(docs, Candidate(base, n)) then Ok(Candidate(base, n))
    else FirstFree(docs, base, n + 1, limit)
  }

  /** Keep the key of the document found, otherwise take the first free candidate. */
  function PlainKey(docs: seq<Doc>, existing: Option<nat>, c: Incoming, limit: nat): Result<string>
    requires existing.Some? ==> existing.value < |docs|
  {
    if existing.Some? && docs[existing.value].key != "" then Ok(docs[existing.value].key)
    else FirstFree(docs, c.key, 1, limit)
  }

  // ---- A whole run ----

  /** How the database answers the lookup before each import. */
  type Lookup = (seq<Doc>, Incoming) -> Option<nat>

  ghost predicate Answers(lookup: Lookup) {
    forall docs, c :: Found(docs, c, lookup(docs, c))
  }

  function ImportAll(s: State, todo: seq<Incoming>, lookup: Lookup, limit: nat): Result<(State, seq<string>)>
    requires Answers(lookup)
    decreases |todo|
  {
    if todo == [] then Ok((s, []))
    else
      assert Found(s.docs, todo[0], lookup(s.docs, todo[0]));
      match ImportOne(s, todo[0], lookup(s.docs, todo[0]), limit)
      case Err(e) => Err(e)
      case Ok((next, key)) =>
        match ImportAll(next, todo[1..], lookup, limit)
        case Err(e) => Err(e)
        case Ok((last, keys)) => Ok((last, [key] + keys))
  }

  /** What is stored when the import ends or is stopped: every city before the one that stopped it. */
  function Reached(s: State, todo: seq<Incoming>, lookup: Lookup, limit: nat): State
    requires Answers(lookup)
    decreases |todo|
  {
    if todo == [] then s
    else
      assert Found(s.docs, todo[0], lookup(s.docs, todo[0]));
      match ImportOne(s, todo[0], lookup(s.docs, todo[0]), limit)
      case Err(_) => s
      case Ok((next, _)) => Reached(next, todo[1..], lookup, limit)
  }

  /** The same import without reservations or unique indexes. */
  function PlainImport(docs: seq<Doc>, todo: seq<Incoming>, lookup: Lookup, limit: nat): Result<(seq<Doc>, seq<string>)>
    requires Answers(lookup)
    decreases |todo|
  {
    if todo == [] then Ok((docs, []))
    else
      var c, existing := todo[0], lookup(docs, todo[0]);
      assert Found(docs, c, existing);
      match PlainKey(docs, existing, c, limit)
      case Err(e) => Err(e)
      case Ok(key) =>
        match PlainImport(Stored(docs, existing, Payload(docs, existing, c, key)), todo[1..], lookup, limit)
        case Err(e) => Err(e)
        case Ok((last, keys)) => Ok((last, [key] + keys))
  }

  function Stored(docs: seq<Doc>, existing: Option<nat>, d: Doc): seq<Doc>
    requires existing.Some? ==> existing.value < |docs|
  {
    if existing.Some? then docs[existing.value := d] else docs + [d]
  }

  // ---- When the import is safe ----

  predicate DocMatches(d: Doc, c: Incoming) { SameIdentity(d.source, d.sourceId, d.name, c) }

  predicate Same(a: Incoming, b: Incoming) { a.sourceId == b.sourceId || Fold(a.name) == Fold(b.name) }

  /**
   * No two cities share an identity, every stored city that shares one with a city to import is what
   * the lookup asks for, and that sharing pairs each with at most one of the other.
   */
  ghost predicate Paired(docs: seq<Doc>, todo: seq<Incoming>) {
    && (forall i | 0 <= i < |todo| :: todo[i].key != "")
    && (forall i, j | 0 <= i < j < |todo| :: !Same(todo[i], todo[j]))
    && (forall d, i | 0 <= d < |docs| && 0 <= i < |todo| && DocMatches(docs[d], todo[i]) :: Wanted(docs[d], todo[i]))
    && (forall d, i, j | 0 <= d < |docs| && 0 <= i < j < |todo| ::
          !(DocMatches(docs[d], todo[i]) && DocMatches(docs[d], todo[j])))
    && (forall d, e, i | 0 <= d < e < |docs| && 0 <= i < |todo| ::
          !(DocMatches(docs[d], todo[i]) && DocMatches(docs[e], todo[i])))
  }

  ghost predicate Clean(docs: seq<Doc>, todo: seq<Incoming>) { Indexed(docs) && Paired(docs, todo) }

  /** A reservation says nothing the documents do not: its key is held, by a document of any city it matches. */
  ghost predicate Backed(docs: seq<Doc>, todo: seq<Incoming>, key: string, r: Reservation) {
    && key != "" && Held(docs, key)
    && (r.docId.Some? ==> r.docId.value < |docs| && docs[r.docId.value].key != "")
    && forall i | 0 <= i < |todo| && SameIdentity(r.source, r.sourceId, r.name, todo[i]) ::
         exists d :: 0 <= d < |docs| && docs[d].key == key && DocMatches(docs[d], todo[i])
  }

  ghost predicate AllBacked(docs: seq<Doc>, todo: seq<Incoming>, reserved: map<string, Reservation>) {
    forall k | k in reserved :: Backed(docs, todo, k, reserved[k])
  }

  /** The document found is the only one that shares the city's identity. */
  lemma OnlyFound(docs: seq<Doc>, todo: seq<Incoming>, existing: Option<nat>, d: nat)
    requires Clean(docs, todo) && todo != [] && Found(docs, todo[0], existing)
    requires d < |docs| && DocMatches(docs[d], todo[0])
    ensures existing == Some(d)
  {
    assert Wanted(docs[d], todo[0]);
  }

  /** For a city without a keyed document no reservation and no holder of a key matches. */
  lemma NoMatch(docs: seq<Doc>, todo: seq<Incoming>, existing: Option<nat>, key: string, r: Reservation)
    requires Clean(docs, todo) && todo != [] && Found(docs, todo[0], existing)
    requires existing.Some? ==> docs[existing.value].key == ""
    requires Backed(docs, todo, key, r)
    ensures !ReservationMatches(r, existing, todo[0])
  {
    if SameIdentity(r.source, r.sourceId, r.name, todo[0]) {
      var d: nat :| d < |docs| && docs[d].key == key && DocMatches(docs[d], todo[0]);
      OnlyFound(docs, todo, existing, d);
    }
  }

  lemma NoteSnapshot(docs: seq<Doc>, todo: seq<Incoming>, reserved: map<string, Reservation>, id: nat)
    requires id < |docs| && docs[id].key != "" && AllBacked(docs, todo, reserved)
    ensures Backed(docs, todo, docs[id].key, SnapshotOf(id, docs[id]))
    ensures AllBacked(docs, todo, reserved[docs[id].key := SnapshotOf(id, docs[id])])
  {
  }

  lemma CandidateNonEmpty(base: string, n: nat)
    requires base != ""
    ensures Candidate(base, n) != ""
  {
  }

  ghost predicate NothingMatches(docs: seq<Doc>, todo: seq<Incoming>, existing: Option<nat>)
    requires todo != []
  {
    forall key, r :: Backed(docs, todo, key, r) ==> !ReservationMatches(r, existing, todo[0])
  }

  /** What a resolution adds to the cache: snapshots of documents, and the city itself under its new key. */
  ghost predicate Extends(docs: seq<Doc>, todo: seq<Incoming>, existing: Option<nat>, key: string,
                          reserved: map<string, Reservation>) {
    forall k | k in reserved ::
      Backed(docs, todo, k, reserved[k])
      || (todo != [] && k == key
          && reserved[k] == Reservation(existing, GEONAMES, Some(todo[0].sourceId), todo[0].name))
  }

  /** Looking through the cache finds the first free candidate, as looking at the documents alone would. */
  lemma {:induction false} ResolveIsFirstFree(s: State, todo: seq<Incoming>, existing: Option<nat>, n: nat, limit: nat)
    requires todo != [] && todo[0].key != "" && AllBacked(s.docs, todo, s.reserved)
    requires NothingMatches(s.docs, todo, existing)
    ensures match ResolveFrom(s, existing, todo[0], n, limit)
      case Err(e) => FirstFree(s.docs, todo[0].key, n, limit) == Err(e)
      case Ok((key, reserved)) =>
        && FirstFree(s.docs, todo[0].key, n, limit) == Ok(key) && key != ""
        && Extends(s.docs, todo, existing, key, reserved)
    decreases limit + 1 - n
  {
    if n <= limit {
      var key := Candidate(todo[0].key, n);
      CandidateNonEmpty(todo[0].key, n);
      if key in s.reserved {
        assert Backed(s.docs, todo, key, s.reserved[key]) && !ReservationMatches(s.reserved[key], existing, todo[0]);
        ResolveIsFirstFree(s, todo, existing, n + 1, limit);
      } else if Held(s.docs, key) {
        var id := Holder(s.docs, key);
        var snapshot := SnapshotOf(id, s.docs[id]);
        NoteSnapshot(s.docs, todo, s.reserved, id);
        assert !ReservationMatches(snapshot, existing, todo[0]);
        ResolveIsFirstFree(s.(reserved := s.reserved[key := snapshot]), todo, existing, n + 1, limit);
      }
    }
  }

  /** One resolution on clean input: the plain key, from a cache that stays backed. */
  lemma ResolveIsPlain(s: State, todo: seq<Incoming>, existing: Option<nat>, limit: nat)
    requires Clean(s.docs, todo) && todo != [] && Found(s.docs, todo[0], existing)
      && AllBacked(s.docs, todo, s.reserved)
    ensures match Resolve(s, existing, todo[0], limit)
      case Err(e) => PlainKey(s.docs, existing, todo[0], limit) == Err(e)
      case Ok((key, reserved)) =>
        && PlainKey(s.docs, existing, todo[0], limit) == Ok(key) && key != ""
        && Extends(s.docs, todo, existing, key, reserved)
  {
    if existing.Some? && s.docs[existing.value].key != "" {
      NoteSnapshot(s.docs, todo, s.reserved, existing.value);
    } else {
      forall key, r | Backed(s.docs, todo, key, r) ensures !ReservationMatches(r, existing, todo[0]) {
        NoMatch(s.docs, todo, existing, key, r);
      }
      ResolveIsFirstFree(s, todo, existing, 1, limit);
    }
  }

  // ---- What an import leaves for the next ----

  /** The document written for a city. */
  predicate WrittenFor(d: Doc, c: Incoming) {
    d.name == c.name && d.countryCode == c.countryCode && (d.source == GEONAMES ==> d.sourceId == Some(c.sourceId))
  }

  lemma WrittenMatchesOnlyItsCity(d: Doc, c: Incoming, other: Incoming)
    requires WrittenFor(d, c) && !Same(c, other)
    ensures !DocMatches(d, other)
  {
  }

  /** The write meets neither index. */
  lemma NoClash(docs: seq<Doc>, todo: seq<Incoming>, existing: Option<nat>, key: string, limit: nat, i: nat)
    requires Clean(docs, todo) && todo != [] && Found(docs, todo[0], existing)
    requires PlainKey(docs, existing, todo[0], limit) == Ok(key)
    requires i < |docs| && Some(i) != existing
    ensures !Clashes(docs[i], Payload(docs, existing, todo[0], key))
  {
    var c, p := todo[0], Payload(docs, existing, todo[0], key);
    if docs[i].key == key {
      if existing.Some? && docs[existing.value].key != "" {
        assert Clashes(docs[i], docs[existing.value]) && Clashes(docs[existing.value], docs[i]);
      } else {
        FirstFreeIsFree(docs, c.key, 1, limit);
      }
    }
    if docs[i].source == p.source && docs[i].sourceId == p.sourceId && p.sourceId.Some? {
      if p.source == GEONAMES {
        OnlyFound(docs, todo, existing, i);
      } else {
        assert Clashes(docs[i], docs[existing.value]) && Clashes(docs[existing.value], docs[i]);
      }
    }
  }

  lemma {:induction false} FirstFreeIsFree(docs: seq<Doc>, base: string, n: nat, limit: nat)
    ensures FirstFree(docs, base, n, limit).Ok? ==> !Held(docs, FirstFree(docs, base, n, limit).value)
    decreases limit + 1 - n
  {
    if n <= limit { FirstFreeIsFree(docs, base, n + 1, limit); }
  }

  lemma StaysIndexed(docs: seq<Doc>, todo: seq<Incoming>, existing: Option<nat>, key: string, limit: nat)
    requires Clean(docs, todo) && todo != [] && Found(docs, todo[0], existing)
    requires PlainKey(docs, existing, todo[0], limit) == Ok(key)
    ensures Indexed(Stored(docs, existing, Payload(docs, existing, todo[0], key)))
    ensures Upsert(docs, existing, Payload(docs, existing, todo[0], key))
         == Ok(Stored(docs, existing, Payload(docs, existing, todo[0], key)))
  {
    var p := Payload(docs, existing, todo[0], key);
    forall i | 0 <= i < |docs| && Some(i) != existing ensures !Clashes(docs[i], p) && !Clashes(p, docs[i]) {
      NoClash(docs, todo, existing, key, limit, i);
    }
  }

  lemma StaysPaired(docs: seq<Doc>, todo: seq<Incoming>, existing: Option<nat>, p: Doc)
    requires Paired(docs, todo) && todo != [] && Found(docs, todo[0], existing) && WrittenFor(p, todo[0])
    ensures Paired(Stored(docs, existing, p), todo[1..])
  {
    var after, rest := Stored(docs, existing, p), todo[1..];
    forall i | 0 <= i < |rest| ensures rest[i] == todo[i + 1] && !DocMatches(p, rest[i]) {
      WrittenMatchesOnlyItsCity(p, todo[0], rest[i]);
    }
    assert forall d | 0 <= d < |after| :: after[d] == p || (d < |docs| && after[d] == docs[d]);
  }

  /** A backed reservation stays backed: the document found is no other city's, and keeps or gains its key. */
  lemma KeepsBacking(docs: seq<Doc>, todo: seq<Incoming>, existing: Option<nat>, p: Doc, k: string, r: Reservation)
    requires Paired(docs, todo) && todo != [] && Found(docs, todo[0], existing)
    requires p.key != "" && (existing.Some? && docs[existing.value].key != "" ==> p.key == docs[existing.value].key)
    requires Backed(docs, todo, k, r)
    ensures Backed(Stored(docs, existing, p), todo[1..], k, r)
  {
    var after, rest := Stored(docs, existing, p), todo[1..];
    var h :| 0 <= h < |docs| && docs[h].key == k;
    assert after[h].key == k;
    forall i | 0 <= i < |rest| && SameIdentity(r.source, r.sourceId, r.name, rest[i])
      ensures exists d :: 0 <= d < |after| && after[d].key == k && DocMatches(after[d], rest[i])
    {
      assert rest[i] == todo[i + 1];
      var d :| 0 <= d < |docs| && docs[d].key == k && DocMatches(docs[d], todo[i + 1]);
      assert Some(d) != existing;
      assert after[d] == docs[d];
    }
  }

  /** The reservation a city makes for itself matches no later city. */
  lemma OwnBacking(docs: seq<Doc>, todo: seq<Incoming>, existing: Option<nat>, p: Doc)
    requires Paired(docs, todo) && todo != [] && Found(docs, todo[0], existing) && p.key != ""
    ensures Backed(Stored(docs, existing, p), todo[1..], p.key,
                   Reservation(existing, GEONAMES, Some(todo[0].sourceId), todo[0].name))
  {
    var after, rest := Stored(docs, existing, p), todo[1..];
    var at := if existing.Some? then existing.value else |docs|;
    assert after[at] == p;
    forall i | 0 <= i < |rest| ensures !SameIdentity(GEONAMES, Some(todo[0].sourceId), todo[0].name, rest[i]) {
      assert rest[i] == todo[i + 1] && !Same(todo[0], todo[i + 1]);
    }
  }

  lemma StaysBacked(docs: seq<Doc>, todo: seq<Incoming>, existing: Option<nat>, p: Doc,
                    reserved: map<string, Reservation>)
    requires Paired(docs, todo) && todo != [] && Found(docs, todo[0], existing)
    requires p.key != "" && (existing.Some? && docs[existing.value].key != "" ==> p.key == docs[existing.value].key)
    requires Extends(docs, todo, existing, p.key, reserved)
    ensures AllBacked(Stored(docs, existing, p), todo[1..], reserved)
  {
    forall k | k in reserved ensures Backed(Stored(docs, existing, p), todo[1..], k, reserved[k]) {
      if Backed(docs, todo, k, reserved[k]) {
        KeepsBacking(docs, todo, existing, p, k, reserved[k]);
      } else {
        OwnBacking(docs, todo, existing, p);
      }
    }
  }

  /** One import on clean input does what the plain one does and leaves clean input for the rest. */
  lemma ImportOneIsPlain(s: State, todo: seq<Incoming>, existing: Option<nat>, limit: nat)
    requires Clean(s.docs, todo) && todo != [] && Found(s.docs, todo[0], existing)
      && AllBacked(s.docs, todo, s.reserved)
    ensures match PlainKey(s.docs, existing, todo[0], limit)
      case Err(e) => ImportOne(s, todo[0], existing, limit) == Err(e)
      case Ok(key) =>
        var r := ImportOne(s, todo[0], existing, limit);
        var docs := Stored(s.docs, existing, Payload(s.docs, existing, todo[0], key));
        && r.Ok? && r.value.1 == key && r.value.0.docs == docs
        && Clean(docs, todo[1..]) && AllBacked(docs, todo[1..], r.value.0.reserved)
  {
    ResolveIsPlain(s, todo, existing, limit);
    match Resolve(s, existing, todo[0], limit)
    case Err(_) =>
    case Ok((key, reserved)) =>
      var p := Payload(s.docs, existing, todo[0], key);
      StaysIndexed(s.docs, todo, existing, key, limit);
      StaysPaired(s.docs, todo, existing, p);
      StaysBacked(s.docs, todo, existing, p, reserved);
  }

  /**
   * On clean input the whole import, with its reservations and its unique indexes, assigns just the keys
   * and stores just the cities the plain import does; no index ever rejects a write.
   */
  lemma {:induction false} ImportIsPlain(s: State, todo: seq<Incoming>, lookup: Lookup, limit: nat)
    requires Answers(lookup) && Clean(s.docs, todo) && AllBacked(s.docs, todo, s.reserved)
    ensures match ImportAll(s, todo, lookup, limit)
      case Err(e) => e == BadRequest && PlainImport(s.docs, todo, lookup, limit) == Err(e)
      case Ok((last, keys)) => PlainImport(s.docs, todo, lookup, limit) == Ok((last.docs, keys)) && Indexed(last.docs)
    decreases |todo|
  {
    if todo != [] {
      var existing := lookup(s.docs, todo[0]);
      assert Found(s.docs, todo[0], existing);
      ImportOneIsPlain(s, todo, existing, limit);
      PlainKeyFails(s.docs, existing, todo[0], limit);
      if ImportOne(s, todo[0], existing, limit).Ok? {
        ImportIsPlain(ImportOne(s, todo[0], existing, limit).value.0, todo[1..], lookup, limit);
      }
    }
  }

  predicate CandidateHeld(docs: seq<Doc>, base: string, n: nat) { Held(docs, Candidate(base, n)) }

  /** A city is given up only when every one of its candidates is held. */
  lemma PlainKeyFails(docs: seq<Doc>, existing: Option<nat>, c: Incoming, limit: nat)
    requires existing.Some? ==> existing.value < |docs|
    ensures PlainKey(docs, existing, c, limit).Err? ==>
      && PlainKey(docs, existing, c, limit) == Err(BadRequest)
      && forall n | 1 <= n <= limit :: CandidateHeld(docs, c.key, n)
  {
    FirstFreeFails(docs, c.key, 1, limit);
  }

  lemma {:induction false} FirstFreeFails(docs: seq<Doc>, base: string, n: nat, limit: nat)
    ensures FirstFree(docs, base, n, limit).Err? ==>
      FirstFree(docs, base, n, limit) == Err(BadRequest) && forall m | n <= m <= limit :: CandidateHeld(docs, base, m)
    decreases limit + 1 - n
  {
    if n <= limit && CandidateHeld(docs, base, n) { FirstFreeFails(docs, base, n + 1, limit); }
  }

  // ---- Keys are distinct ----

  /** A document that no city to import matches stays as it is, and no city gets its key. */
  lemma {:induction false} OthersKeepTheirKeys(docs: seq<Doc>, todo: seq<Incoming>, lookup: Lookup, limit: nat, i: nat)
    requires Answers(lookup) && Clean(docs, todo) && i < |docs|
    requires forall j | 0 <= j < |todo| :: !DocMatches(docs[i], todo[j])
    requires PlainImport(docs, todo, lookup, limit).Ok?
    ensures var (last, keys) := PlainImport(docs, todo, lookup, limit).value;
      i < |last| && last[i] == docs[i] && docs[i].key !in keys
    decreases |todo|
  {
    if todo != [] {
      var existing := lookup(docs, todo[0]);
      assert Found(docs, todo[0], existing);
      var key := PlainKey(docs, existing, todo[0], limit).value;
      var p := Payload(docs, existing, todo[0], key);
      NoClash(docs, todo, existing, key, limit, i);
      StaysIndexed(docs, todo, existing, key, limit);
      StaysPaired(docs, todo, existing, p);
      OthersKeepTheirKeys(Stored(docs, existing, p), todo[1..], lookup, limit, i);
    }
  }

  /** Some document carries the key and was written for the city. */
  predicate StoredFor(docs: seq<Doc>, key: string, c: Incoming) {
    exists d :: 0 <= d < |docs| && docs[d].key == key && WrittenFor(docs[d], c)
  }

  /** Every city has a document under its key, and no two cities have the same key. */
  ghost predicate Assigned(docs: seq<Doc>, cities: seq<Incoming>, keys: seq<string>) {
    && |keys| == |cities|
    && (forall i, j | 0 <= i < j < |keys| :: keys[i] != keys[j])
    && forall j | 0 <= j < |cities| :: StoredFor(docs, keys[j], cities[j])
  }

  lemma AssignedCons(docs: seq<Doc>, c: Incoming, key: string, cities: seq<Incoming>, keys: seq<string>)
    requires Assigned(docs, cities, keys) && key !in keys && StoredFor(docs, key, c)
    ensures Assigned(docs, [c] + cities, [key] + keys)
  {
  }

  /** After the first city, its document is none of the others' business. */
  lemma FirstSettles(docs: seq<Doc>, todo: seq<Incoming>, lookup: Lookup, limit: nat, existing: Option<nat>,
                     key: string)
    requires Answers(lookup) && Clean(docs, todo) && todo != [] && Found(docs, todo[0], existing)
    requires PlainKey(docs, existing, todo[0], limit) == Ok(key)
    ensures var after := Stored(docs, existing, Payload(docs, existing, todo[0], key));
      && Clean(after, todo[1..])
      && var r := PlainImport(after, todo[1..], lookup, limit);
         r.Ok? ==> key !in r.value.1 && StoredFor(r.value.0, key, todo[0])
  {
    var p := Payload(docs, existing, todo[0], key);
    var after, rest := Stored(docs, existing, p), todo[1..];
    StaysIndexed(docs, todo, existing, key, limit);
    StaysPaired(docs, todo, existing, p);
    var at := if existing.Some? then existing.value else |docs|;
    assert after[at] == p;
    forall j | 0 <= j < |rest| ensures !DocMatches(p, rest[j]) {
      WrittenMatchesOnlyItsCity(p, todo[0], rest[j]);
    }
    if PlainImport(after, rest, lookup, limit).Ok? {
      OthersKeepTheirKeys(after, rest, lookup, limit, at);
      assert PlainImport(after, rest, lookup, limit).value.0[at].key == key;
    }
  }

  lemma {:induction false} PlainKeysDistinct(docs: seq<Doc>, todo: seq<Incoming>, lookup: Lookup, limit: nat)
    requires Answers(lookup) && Clean(docs, todo) && PlainImport(docs, todo, lookup, limit).Ok?
    ensures Assigned(PlainImport(docs, todo, lookup, limit).value.0, todo,
                     PlainImport(docs, todo, lookup, limit).value.1)
    decreases |todo|
  {
    if todo != [] {
      var existing := lookup(docs, todo[0]);
      assert Found(docs, todo[0], existing);
      var key := PlainKey(docs, existing, todo[0], limit).value;
      var after, rest := Stored(docs, existing, Payload(docs, existing, todo[0], key)), todo[1..];
      FirstSettles(docs, todo, lookup, limit, existing, key);
      PlainKeysDistinct(after, rest, lookup, limit);
      var (last, keys) := PlainImport(after, rest, lookup, limit).value;
      AssignedCons(last, todo[0], key, rest, keys);
      assert todo == [todo[0]] + rest;
    }
  }

  /** The import as it is run: from an empty cache, with at most 200 candidates for each city. */
  function ImportRun(docs: seq<Doc>, cities: seq<Incoming>, lookup: Lookup): Result<(State, seq<string>)>
    requires Answers(lookup)
  {
    ImportAll(State(docs, map[]), cities, lookup, MAX_SUFFIX)
  }

  lemma CleanImportKeysDistinct(docs: seq<Doc>, cities: seq<Incoming>, lookup: Lookup)
    requires Answers(lookup) && Clean(docs, cities)
    ensures ImportRun(docs, cities, lookup).Err? ==> ImportRun(docs, cities, lookup).error == BadRequest
    ensures ImportRun(docs, cities, lookup).Ok? ==>
      && Indexed(ImportRun(docs, cities, lookup).value.0.docs)
      && Assigned(ImportRun(docs, cities, lookup).value.0.docs, cities, ImportRun(docs, cities, lookup).value.1)
  {
    var limit := MAX_SUFFIX;
    ImportIsPlain(State(docs, map[]), cities, lookup, limit);
    if PlainImport(docs, cities, lookup, limit).Ok? {
      PlainKeysDistinct(docs, cities, lookup, limit);
    }
  }

  // ---- One stored city, one to import ----

  /** Every lookup finds the one document that fits, and none where none does. */
  lemma AnswerForced(lookup: Lookup, d: Doc, c: Incoming)
    requires Answers(lookup)
    ensures lookup([d], c) == if Wanted(d, c) then Some(0) else None
  {
    assert Found([d], c, lookup([d], c));
    assert [d][0] == d;
  }

  lemma ImportJust(s: State, c: Incoming, lookup: Lookup, limit: nat)
    requires Answers(lookup)
    ensures Found(s.docs, c, lookup(s.docs, c))
    ensures match ImportOne(s, c, lookup(s.docs, c), limit)
      case Err(e) => ImportAll(s, [c], lookup, limit) == Err(e)
      case Ok((next, key)) => ImportAll(s, [c], lookup, limit) == Ok((next, [key]))
  {
    assert [c][1..] == [] && [c][0] == c;
    assert Found(s.docs, c, lookup(s.docs, c));
    if ImportOne(s, c, lookup(s.docs, c), limit).Ok? {
      var (next, key) := ImportOne(s, c, lookup(s.docs, c), limit).value;
      assert ImportAll(next, [], lookup, limit) == Ok((next, []));
      assert [key] + [] == [key];
    }
  }

  /** The only stored city is found: it is overwritten under its key, or under a key of its own if it has none. */
  lemma FoundIsOverwritten(d: Doc, c: Incoming, limit: nat)
    requires limit >= 1 && (d.key != "" || c.key != "")
    ensures ImportOne(State([d], map[]), c, Some(0), limit).Ok?
    ensures d.key != "" ==> var p := Payload([d], Some(0), c, d.key);
      ImportOne(State([d], map[]), c, Some(0), limit) == Ok((State([p], map[][d.key := SnapshotOf(0, d)]), d.key))
  {
    var key := if d.key != "" then d.key else c.key;
    assert Candidate(c.key, 1) == c.key;
    var p := Payload([d], Some(0), c, key);
    assert Upsert([d], Some(0), p) == Ok([p]) by { assert [d][0 := p] == [p]; }
  }
}
