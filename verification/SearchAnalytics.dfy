/**
 * Search events counted once per time bucket, actor and query, with an expiring store as the memory of
 * what was already counted, and when that store does the work of a plain set.
 */
module SearchAnalytics {
  import opened Common
  import opened ExpiringStore

  datatype Target = RequestTarget | ProviderTarget
  datatype Actor = User(id: string) | Session(id: string) | Address(ip: string, userAgent: string)

  /** What a search was about, after normalisation; the row it is counted in has the same fields. */
  datatype Criteria = Criteria(target: Target, cityId: Option<string>, citySlug: Option<string>,
                               categoryKey: Option<string>, subcategoryKey: Option<string>)

  datatype Event = Event(at: nat, actor: Actor, criteria: Criteria, query: Option<string>)

  datatype RowKey = RowKey(bucketStart: int, criteria: Criteria)
  datatype DedupeKey = DedupeKey(row: RowKey, actor: Actor, query: Option<string>)

  datatype State = State(storage: map<DedupeKey, Entry<string>>, rows: map<RowKey, nat>)

  // ---- Configuration ----

  /** A configured number: missing, not a finite number, or finite. */
  datatype Setting = Unset | NotFinite | Finite(value: real)

  function BucketSeconds(s: Setting): (n: nat)
    ensures n >= 60
  {
    match s
    case Finite(v) => if v < 60.0 then 900 else v.Floor
    case _ => 900
  }

  function DedupeTtlSeconds(s: Setting, bucketSeconds: nat): (n: nat)
    requires bucketSeconds >= 60
    ensures n >= 60
  {
    match s
    case Finite(v) => if v < 60.0 then bucketSeconds + 120 else v.Floor
    case _ => bucketSeconds + 120
  }

  /** The environment layer supplies a fixed number where the variable is missing. */
  function EnvironmentTtl(variable: Setting): Setting {
    if variable == Unset then Finite(1020.0) else variable
  }

  // ---- Tracking ----

  function BucketStart(at: int, bucketMs: int): (b: int)
    requires bucketMs > 0
    ensures b <= at < b + bucketMs
  {
    at / bucketMs * bucketMs
  }

  function RowOf(e: Event, bucketMs: int): RowKey
    requires bucketMs > 0
  {
    RowKey(BucketStart(e.at, bucketMs), e.criteria)
  }

  function KeyOf(e: Event, bucketMs: int): DedupeKey
    requires bucketMs > 0
  {
    DedupeKey(RowOf(e, bucketMs), e.actor, e.query)
  }

  function Count(rows: map<RowKey, nat>, row: RowKey): nat { if row in rows then rows[row] else 0 }

  /** One event: counted unless its key is still visible. */
  function Track(s: State, e: Event, bucket: nat, ttl: nat): State
    requires bucket > 0
  {
    var key := KeyOf(e, bucket * 1000);
    if Visible(s.storage, key, e.at).Some? then s
    else State(s.storage[key := Entry("1", Some(e.at + TtlMs(ttl)))], s.rows[key.row := Count(s.rows, key.row) + 1])
  }

  function Run(events: seq<Event>, bucket: nat, ttl: nat): State
    requires bucket > 0
  {
    if events == [] then State(map[], map[])
    else Track(Run(events[..|events| - 1], bucket, ttl), events[|events| - 1], bucket, ttl)
  }

  // ---- What a row should count ----

  ghost predicate TimeOrdered(events: seq<Event>) {
    forall i, j | 0 <= i < j < |events| :: events[i].at <= events[j].at
  }

  /** The actors and queries that fell into a row. */
  function Seen(events: seq<Event>, row: RowKey, bucketMs: int): set<(Actor, Option<string>)>
    requires bucketMs > 0
  {
    set e | e in events && RowOf(e, bucketMs) == row :: (e.actor, e.query)
  }

  /**
   * The same in terms of time: the searches for the row's criteria whose time, rounded down to a bucket, is the
   * row's.
   */
  function FellInto(events: seq<Event>, row: RowKey, bucketMs: int): set<(Actor, Option<string>)>
    requires bucketMs > 0
  {
    set e | e in events && e.criteria == row.criteria && e.at - e.at % bucketMs == row.bucketStart :: (e.actor, e.query)
  }

  lemma RoundedDown(at: int, bucketMs: int)
    requires bucketMs > 0
    ensures BucketStart(at, bucketMs) == at - at % bucketMs
  {
  }

  lemma SeenFellInto(events: seq<Event>, row: RowKey, bucketMs: int)
    requires bucketMs > 0
    ensures Seen(events, row, bucketMs) == FellInto(events, row, bucketMs)
  {
    forall e | e in events ensures RowOf(e, bucketMs) == row
      <==> e.criteria == row.criteria && e.at - e.at % bucketMs == row.bucketStart {
      RoundedDown(e.at, bucketMs);
    }
  }

  ghost predicate CountsDistinct(events: seq<Event>, bucket: nat, ttl: nat)
    requires bucket > 0
  {
    forall row :: Count(Run(events, bucket, ttl).rows, row) == |FellInto(events, row, bucket * 1000)|
  }

  /** The settings as they take effect: at least a minute each, a quarter of an hour and two minutes more by default. */
  lemma SettingsExact(bucket: Setting, lifetime: Setting, seconds: nat)
    requires seconds >= 60
    ensures BucketSeconds(Unset) == 900 && BucketSeconds(NotFinite) == 900
    ensures bucket.Finite? ==> BucketSeconds(bucket) == if bucket.value < 60.0 then 900 else bucket.value.Floor
    ensures DedupeTtlSeconds(Unset, seconds) == seconds + 120 && DedupeTtlSeconds(NotFinite, seconds) == seconds + 120
    ensures lifetime.Finite? ==>
      DedupeTtlSeconds(lifetime, seconds) == if lifetime.value < 60.0 then seconds + 120 else lifetime.value.Floor
    ensures EnvironmentTtl(lifetime) == if lifetime.Unset? then Finite(1020.0) else lifetime
  {
  }

  /** Entries outlive their bucket, and are exactly the keys of the events so far. */
  ghost predicate Remembers(s: State, events: seq<Event>, bucketMs: int)
    requires bucketMs > 0
  {
    && (forall k | k in s.storage :: s.storage[k].expiresAt.Some?
                                  && k.row.bucketStart + bucketMs <= s.storage[k].expiresAt.value)
    && (forall k | k in s.storage :: exists e :: e in events && KeyOf(e, bucketMs) == k)
    && (forall e | e in events :: KeyOf(e, bucketMs) in s.storage)
  }

  lemma SeenSnoc(events: seq<Event>, e: Event, row: RowKey, bucketMs: int)
    requires bucketMs > 0
    ensures Seen(events + [e], row, bucketMs)
         == Seen(events, row, bucketMs) + if RowOf(e, bucketMs) == row then {(e.actor, e.query)} else {}
  {
    var all := events + [e];
    assert forall x | x in all :: x in events || x == e;
    assert e in all && forall x | x in events :: x in all;
  }

  /** An event is new to its row exactly when its key is not visible. */
  lemma VisibleIffSeen(s: State, events: seq<Event>, e: Event, bucketMs: int)
    requires bucketMs > 0 && Remembers(s, events, bucketMs)
    ensures var key := KeyOf(e, bucketMs);
      Visible(s.storage, key, e.at).Some? <==> (e.actor, e.query) in Seen(events, key.row, bucketMs)
  {
    var key := KeyOf(e, bucketMs);
    if key in s.storage {
      var f :| f in events && KeyOf(f, bucketMs) == key;
      assert (f.actor, f.query) in Seen(events, key.row, bucketMs);
    }
  }

  lemma SeenGrowth(events: seq<Event>, e: Event, row: RowKey, bucketMs: int)
    requires bucketMs > 0
    ensures |Seen(events + [e], row, bucketMs)|
         == |Seen(events, row, bucketMs)|
            + if RowOf(e, bucketMs) == row && (e.actor, e.query) !in Seen(events, row, bucketMs) then 1 else 0
  {
    SeenSnoc(events, e, row, bucketMs);
    var before := Seen(events, row, bucketMs);
    assert (e.actor, e.query) in before ==> before + {(e.actor, e.query)} == before;
    assert before + {} == before;
  }

  lemma TrackStep(s: State, events: seq<Event>, e: Event, bucket: nat, ttl: nat)
    requires bucket > 0 && ttl >= bucket && Remembers(s, events, bucket * 1000)
    requires forall row :: Count(s.rows, row) == |Seen(events, row, bucket * 1000)|
    ensures var t := Track(s, e, bucket, ttl);
      && Remembers(t, events + [e], bucket * 1000)
      && forall row :: Count(t.rows, row) == |Seen(events + [e], row, bucket * 1000)|
  {
    var bucketMs, t := bucket * 1000, Track(s, e, bucket, ttl);
    VisibleIffSeen(s, events, e, bucketMs);
    RemembersStep(s, events, e, bucket, ttl);
    forall row ensures Count(t.rows, row) == |Seen(events + [e], row, bucketMs)| {
      SeenGrowth(events, e, row, bucketMs);
    }
  }

  lemma RemembersStep(s: State, events: seq<Event>, e: Event, bucket: nat, ttl: nat)
    requires bucket > 0 && ttl >= bucket && Remembers(s, events, bucket * 1000)
    ensures Remembers(Track(s, e, bucket, ttl), events + [e], bucket * 1000)
  {
    var bucketMs, t, all := bucket * 1000, Track(s, e, bucket, ttl), events + [e];
    var key := KeyOf(e, bucketMs);
    assert e in all && (forall x | x in events :: x in all) && (forall x | x in all :: x in events || x == e);
    assert TtlMs(ttl) >= bucketMs;
    forall k | k in t.storage ensures exists x :: x in all && KeyOf(x, bucketMs) == k {
      if k == key {
        assert e in all && KeyOf(e, bucketMs) == k;
      } else {
        var x :| x in events && KeyOf(x, bucketMs) == k;
        assert x in all;
      }
    }
  }

  /**
   * With a lifetime of at least the bucket length, every row counts exactly the distinct pairs of
   * actor and query that fell into it.
   */
  lemma LongLifetimeCountsDistinct(events: seq<Event>, bucket: nat, ttl: nat)
    requires bucket > 0 && ttl >= bucket && TimeOrdered(events)
    ensures CountsDistinct(events, bucket, ttl)
  {
    LongLifetimeCountsSeen(events, bucket, ttl);
    forall row ensures Count(Run(events, bucket, ttl).rows, row) == |FellInto(events, row, bucket * 1000)| {
      SeenFellInto(events, row, bucket * 1000);
    }
  }

  lemma {:induction false} LongLifetimeCountsSeen(events: seq<Event>, bucket: nat, ttl: nat)
    requires bucket > 0 && ttl >= bucket && TimeOrdered(events)
    ensures forall row :: Count(Run(events, bucket, ttl).rows, row) == |Seen(events, row, bucket * 1000)|
    ensures Remembers(Run(events, bucket, ttl), events, bucket * 1000)
  {
    if events == [] {
      assert forall row :: Seen(events, row, bucket * 1000) == {};
    } else {
      var init, e := events[..|events| - 1], events[|events| - 1];
      LongLifetimeCountsSeen(init, bucket, ttl);
      TrackStep(Run(init, bucket, ttl), init, e, bucket, ttl);
      assert init + [e] == events;
    }
  }

  /** The same search twice, the second at the moment the entry of the first expires. */
  function Repeated(ttl: nat, actor: Actor, criteria: Criteria, query: Option<string>): seq<Event> {
    [Event(0, actor, criteria, query), Event(ttl * 1000, actor, criteria, query)]
  }

  /** An event whose key is not visible raises the count of its row by one. */
  lemma UnseenCounts(s: State, e: Event, bucket: nat, ttl: nat)
    requires bucket > 0 && Visible(s.storage, KeyOf(e, bucket * 1000), e.at).None?
    ensures var row := RowOf(e, bucket * 1000);
      Count(Track(s, e, bucket, ttl).rows, row) == Count(s.rows, row) + 1
  {
  }

  lemma FirstTracked(e: Event, bucket: nat, ttl: nat)
    requires bucket > 0
    ensures var s := Run([e], bucket, ttl);
      && s.storage == map[KeyOf(e, bucket * 1000) := Entry("1", Some(e.at + TtlMs(ttl)))]
      && Count(s.rows, RowOf(e, bucket * 1000)) == 1
  {
    assert [e][..0] == [];
    assert Run([], bucket, ttl) == State(map[], map[]);
  }

  lemma SameBucket(ttl: nat, bucket: nat)
    requires ttl < bucket
    ensures BucketStart(0, bucket * 1000) == 0 && BucketStart(ttl * 1000, bucket * 1000) == 0
  {
  }

  lemma RepeatedCountsTwice(bucket: nat, ttl: nat, actor: Actor, criteria: Criteria, query: Option<string>)
    requires ttl < bucket
    ensures Count(Run(Repeated(ttl, actor, criteria, query), bucket, ttl).rows, RowKey(0, criteria)) == 2
  {
    var events := Repeated(ttl, actor, criteria, query);
    var first, second := events[0], events[1];
    SameBucket(ttl, bucket);
    FirstTracked(first, bucket, ttl);
    assert events[..1] == [first];
    UnseenCounts(Run([first], bucket, ttl), second, bucket, ttl);
  }

  lemma RepeatedSeenOnce(bucket: nat, ttl: nat, actor: Actor, criteria: Criteria, query: Option<string>)
    requires ttl < bucket
    ensures Seen(Repeated(ttl, actor, criteria, query), RowKey(0, criteria), bucket * 1000) == {(actor, query)}
  {
    var events := Repeated(ttl, actor, criteria, query);
    SameBucket(ttl, bucket);
    assert RowOf(events[0], bucket * 1000) == RowKey(0, criteria) && events[0] in events;
    assert forall e | e in events :: e.actor == actor && e.query == query;
  }

  /** A shorter lifetime counts one actor's repeated search twice. */
  lemma ShortLifetimeCountsTwice(bucket: nat, ttl: nat, actor: Actor, criteria: Criteria, query: Option<string>)
    requires ttl < bucket
    ensures var events := Repeated(ttl, actor, criteria, query);
      && TimeOrdered(events)
      && Count(Run(events, bucket, ttl).rows, RowKey(0, criteria)) == 2
      && Seen(events, RowKey(0, criteria), bucket * 1000) == {(actor, query)}
  {
    RepeatedCountsTwice(bucket, ttl, actor, criteria, query);
    RepeatedSeenOnce(bucket, ttl, actor, criteria, query);
  }

  /** The expiring store stands in for a plain set exactly when entries live at least as long as a bucket. */
  lemma CountsDistinctIff(bucket: nat, ttl: nat)
    requires bucket > 0
    ensures (forall events | TimeOrdered(events) :: CountsDistinct(events, bucket, ttl)) <==> ttl >= bucket
  {
    if ttl >= bucket {
      forall events | TimeOrdered(events) ensures CountsDistinct(events, bucket, ttl) {
        LongLifetimeCountsDistinct(events, bucket, ttl);
      }
    } else {
      var criteria := Criteria(RequestTarget, None, None, None, None);
      ShortLifetimeCountsTwice(bucket, ttl, User(""), criteria, None);
      var events := Repeated(ttl, User(""), criteria, None);
      assert !CountsDistinct(events, bucket, ttl) by {
        var row := RowKey(0, criteria);
        SeenFellInto(events, row, bucket * 1000);
        assert Count(Run(events, bucket, ttl).rows, row) != |FellInto(events, row, bucket * 1000)|;
      }
    }
  }

  /**
   * The margin the service would add to the bucket never applies, since the environment layer always
   * supplies a lifetime: left unset, it is right exactly for buckets of up to 1020 seconds.
   */
  lemma UnsetLifetimeFitsIff(bucketSetting: Setting)
    ensures var bucket := BucketSeconds(bucketSetting);
      var ttl := DedupeTtlSeconds(EnvironmentTtl(Unset), bucket);
      (forall events | TimeOrdered(events) :: CountsDistinct(events, bucket, ttl)) <==> bucket <= 1020
  {
    CountsDistinctIff(BucketSeconds(bucketSetting), 1020);
  }
}
