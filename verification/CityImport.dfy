/** The city import over its stored documents and its reservations. */
module CityImport {
  import opened Common
  import opened CityDedupe
  import opened CityKeys
  import opened CityBatch

  /** The lookup as a scan of the collection in storage order. */
  function FirstWanted(docs: seq<Doc>, c: Incoming): (found: Option<nat>)
    ensures Found(docs, c, found)
  {
    if docs == [] then None
    else if Wanted(docs[0], c) then Some(0)
    else
      var rest := FirstWanted(docs[1..], c);
      assert forall i | 1 <= i < |docs| :: docs[i] == docs[1..][i - 1];
      if rest.Some? then Some(rest.value + 1) else None
  }

  lemma FirstWantedAnswers()
    ensures Answers(FirstWanted)
  {
    forall docs, c ensures Found(docs, c, FirstWanted(docs, c)) {
    }
  }

  /** A result preceded by the keys given out before it. */
  function After(keys: seq<string>, r: Result<(State, seq<string>)>): Result<(State, seq<string>)> {
    match r
    case Ok((last, rest)) => Ok((last, keys + rest))
    case Err(e) => Err(e)
  }

  lemma AfterNone(r: Result<(State, seq<string>)>)
    ensures After([], r) == r
  {
    if r.Ok? { assert [] + r.value.1 == r.value.1; }
  }

  function ImportFirst(s: State, cities: seq<Incoming>, limit: nat): Result<(State, seq<string>)> {
    FirstWantedAnswers();
    ImportAll(s, cities, FirstWanted, limit)
  }

  /** The documents stored when the import ends or is stopped. */
  function DocsReached(s: State, cities: seq<Incoming>, limit: nat): seq<Doc> {
    FirstWantedAnswers();
    Reached(s, cities, FirstWanted, limit).docs
  }

  lemma ReachedStep(s: State, cities: seq<Incoming>, i: nat, limit: nat)
    requires i < |cities|
    ensures DocsReached(s, cities[i..], limit)
         == match ImportOne(s, cities[i], FirstWanted(s.docs, cities[i]), limit)
            case Ok((next, _)) => DocsReached(next, cities[i + 1..], limit)
            case Err(_) => s.docs
  {
    FirstWantedAnswers();
    assert cities[i..][0] == cities[i] && cities[i..][1..] == cities[i + 1..];
  }

  lemma ImportStep(s: State, keys: seq<string>, cities: seq<Incoming>, i: nat, limit: nat)
    requires i < |cities|
    ensures After(keys, ImportFirst(s, cities[i..], limit))
         == match ImportOne(s, cities[i], FirstWanted(s.docs, cities[i]), limit)
            case Ok((next, key)) => After(keys + [key], ImportFirst(next, cities[i + 1..], limit))
            case Err(e) => Err(e)
  {
    FirstWantedAnswers();
    assert cities[i..][0] == cities[i] && cities[i..][1..] == cities[i + 1..];
    match ImportOne(s, cities[i], FirstWanted(s.docs, cities[i]), limit)
    case Err(_) =>
    case Ok((next, key)) =>
      match ImportFirst(next, cities[i + 1..], limit)
      case Err(_) =>
      case Ok((_, rest)) => assert keys + ([key] + rest) == (keys + [key]) + rest;
  }

  class CityImporter {
    var docs: seq<Doc>
    var reserved: map<string, Reservation>

    constructor (docs: seq<Doc>)
      ensures this.docs == docs && reserved == map[]
    {
      this.docs, reserved := docs, map[];
    }

    ghost function Contents(): State
      reads this
    {
      State(docs, reserved)
    }

    method ResolveUniqueImportKey(existing: Option<nat>, city: Incoming, limit: nat) returns (r: Result<string>)
      requires existing.Some? ==> existing.value < |docs|
      requires limit >= 1
      modifies `reserved
      ensures match Resolve(old(Contents()), existing, city, limit)
        case Ok((key, kept)) => r == Ok(key) && reserved == kept
        case Err(e) => r == Err(e)
    {
      if existing.Some? && docs[existing.value].key != "" {
        var found := docs[existing.value];
        reserved := reserved[found.key := SnapshotOf(existing.value, found)];
        return Ok(found.key);
      }
      var candidateKey := city.key;
      var suffix: nat := 1;
      while true
        invariant 1 <= suffix <= limit && candidateKey == Candidate(city.key, suffix)
        invariant ResolveFrom(old(Contents()), existing, city, 1, limit)
               == ResolveFrom(Contents(), existing, city, suffix, limit)
        decreases limit - suffix
      {
        if candidateKey in reserved && ReservationMatches(reserved[candidateKey], existing, city) {
          return Ok(candidateKey);
        }
        if candidateKey !in reserved {
          if !Held(docs, candidateKey) {
            reserved := reserved[candidateKey := Reservation(existing, GEONAMES, Some(city.sourceId), city.name)];
            return Ok(candidateKey);
          }
          var id := Holder(docs, candidateKey);
          var dbReservation := SnapshotOf(id, docs[id]);
          reserved := reserved[candidateKey := dbReservation];
          if ReservationMatches(dbReservation, existing, city) {
            return Ok(candidateKey);
          }
        }
        suffix := suffix + 1;
        if suffix > limit {
          return Err(BadRequest);
        }
        candidateKey := city.key + "_" + Decimal(suffix);
      }
    }

    method ImportCity(city: Incoming, limit: nat) returns (r: Result<string>)
      requires limit >= 1
      modifies this
      ensures match ImportOne(old(Contents()), city, FirstWanted(old(docs), city), limit)
        case Ok((next, key)) => r == Ok(key) && Contents() == next
        case Err(e) => r == Err(e) && docs == old(docs)
    {
      var existing := FirstWanted(docs, city);
      var key :- ResolveUniqueImportKey(existing, city, limit);
      var payload := Payload(docs, existing, city, key);
      docs :- Upsert(docs, existing, payload);
      r := Ok(key);
    }

    /** A failing city leaves the ones before it stored. */
    method Import(cities: seq<Incoming>) returns (r: Result<seq<string>>)
      modifies this
      ensures match ImportFirst(old(Contents()), cities, MAX_SUFFIX)
        case Ok((last, keys)) => r == Ok(keys) && Contents() == last
        case Err(e) => r == Err(e)
      ensures docs == DocsReached(old(Contents()), cities, MAX_SUFFIX)
    {
      var limit := MAX_SUFFIX;
      var keys := [];
      ghost var whole, stored := ImportFirst(Contents(), cities, limit), DocsReached(Contents(), cities, limit);
      assert cities[0..] == cities;
      AfterNone(whole);
      for i := 0 to |cities|
        invariant whole == After(keys, ImportFirst(Contents(), cities[i..], limit))
        invariant stored == DocsReached(Contents(), cities[i..], limit)
      {
        ImportStep(Contents(), keys, cities, i, limit);
        ReachedStep(Contents(), cities, i, limit);
        var key :- ImportCity(cities[i], limit);
        keys := keys + [key];
      }
      assert cities[|cities|..] == [] && keys + [] == keys;
      r := Ok(keys);
    }

    /** The script: deduplicate the file, then import what is left from an empty cache. */
    method Bootstrap(file: seq<City>, keyOf: KeyOf) returns (r: Result<seq<string>>)
      modifies this
      ensures var batch, start := Batch(file, keyOf), State(old(docs), map[]);
        && docs == DocsReached(start, batch, MAX_SUFFIX)
        && match ImportFirst(start, batch, MAX_SUFFIX)
           case Ok((last, keys)) => r == Ok(keys) && docs == last.docs
           case Err(e) => r == Err(e)
    {
      var unique, order := Deduplicate(file);
      BatchListsFolded(file, keyOf);
      reserved := map[];
      r := Import(seq(|order|, i requires 0 <= i < |order| => Prepared(unique[order[i]], keyOf)));
    }
  }
}
