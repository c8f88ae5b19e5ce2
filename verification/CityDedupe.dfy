/**
 * Deduplication of imported GeoNames rows by country and name, and why the surviving row and its search
 * names do not depend on the order of the file.
 */
module CityDedupe {
  import opened Common

  /** An imported row; `details` stands for the fields that are copied along unread. */
  datatype Row = Row(sourceId: string, countryCode: string, name: string, population: Option<int>,
                     featureCode: string, details: string)

  datatype City = City(row: Row, aliases: seq<string>, normalizedAliases: seq<string>)

  const MAX_ALIASES := 50

  // ---- Comparing rows ----

  function Lower(c: char): char {
    if 'A' <= c <= 'Z' then (c as int + 32) as char else c
  }

  function Fold(s: string): (r: string)
    ensures |r| == |s|
  {
    seq(|s|, i requires 0 <= i < |s| => Lower(s[i]))
  }

  function IdentityKey(c: City): string { Fold(c.row.countryCode + ":" + c.row.name) }

  function FeatureRank(code: string): nat {
    if code == "PPLC" then 110
    else if code == "PPLA" then 100
    else if code == "PPLA2" then 90
    else if code == "PPLA3" then 80
    else if code == "PPLA4" then 70
    else if code == "PPL" then 60
    else if code == "PPLG" then 50
    else if code == "PPLF" then 40
    else if code == "PPLL" then 30
    else if code == "PPLR" then 20
    else if code == "PPLS" then 10
    else 0
  }

  /** Code-unit order of strings. */
  predicate Precedes(a: string, b: string) {
    b != [] && (a == [] || a[0] < b[0] || (a[0] == b[0] && Precedes(a[1..], b[1..])))
  }

  lemma {:induction false} PrecedesTotal(a: string, b: string)
    ensures Precedes(a, b) || Precedes(b, a) || a == b
    ensures !(Precedes(a, b) && Precedes(b, a)) && !Precedes(a, a)
  {
    if a != [] { PrecedesTotal(a[1..], a[1..]); }
    if a != [] && b != [] && a[0] == b[0] {
      PrecedesTotal(a[1..], b[1..]);
      assert a == [a[0]] + a[1..] && b == [b[0]] + b[1..];
    }
  }

  lemma {:induction false} PrecedesTransitive(a: string, b: string, c: string)
    requires Precedes(a, b) && Precedes(b, c)
    ensures Precedes(a, c)
  {
    if a != [] && a[0] == b[0] == c[0] { PrecedesTransitive(a[1..], b[1..], c[1..]); }
  }

  function Population(r: Row): int { if r.population.Some? then r.population.value else -1 }

  /** More people, then the higher feature rank, then the smaller source id. */
  predicate Beats(a: Row, b: Row) {
    || Population(a) > Population(b)
    || (Population(a) == Population(b) && FeatureRank(a.featureCode) > FeatureRank(b.featureCode))
    || (Population(a) == Population(b) && FeatureRank(a.featureCode) == FeatureRank(b.featureCode)
        && Precedes(a.sourceId, b.sourceId))
  }

  lemma BeatsTotal(a: Row, b: Row)
    ensures a.sourceId != b.sourceId ==> Beats(a, b) || Beats(b, a)
    ensures !(Beats(a, b) && Beats(b, a)) && !Beats(a, a)
  {
    PrecedesTotal(a.sourceId, b.sourceId);
    PrecedesTotal(a.sourceId, a.sourceId);
  }

  lemma BeatsTransitive(a: Row, b: Row, c: Row)
    requires Beats(a, b) && Beats(b, c)
    ensures Beats(a, c)
  {
    if Precedes(a.sourceId, b.sourceId) && Precedes(b.sourceId, c.sourceId) {
      PrecedesTransitive(a.sourceId, b.sourceId, c.sourceId);
    }
  }

  // ---- What the comparison means ----

  /** Two names are equal up to the case of the letters A to Z. */
  lemma SameUpToCase(a: string, b: string)
    ensures Fold(a) == Fold(b) <==>
      |a| == |b| && forall i | 0 <= i < |a| ::
        || a[i] == b[i]
        || ('A' <= a[i] <= 'Z' && b[i] as int == a[i] as int + 32)
        || ('A' <= b[i] <= 'Z' && a[i] as int == b[i] as int + 32)
  {
    if |a| == |b| {
      forall i | 0 <= i < |a| ensures Fold(a)[i] == Lower(a[i]) && Fold(b)[i] == Lower(b[i]) {
      }
    }
  }

  /** The feature codes from the most to the least important. */
  const IMPORTANCE := ["PPLC", "PPLA", "PPLA2", "PPLA3", "PPLA4", "PPL", "PPLG", "PPLF", "PPLL", "PPLR", "PPLS"]

  lemma RankAt(i: nat)
    requires i < |IMPORTANCE|
    ensures FeatureRank(IMPORTANCE[i]) == 110 - 10 * i
  {
  }

  lemma UnknownLast(code: string)
    requires code !in IMPORTANCE
    ensures FeatureRank(code) == 0
  {
    assert forall k | 0 <= k < |IMPORTANCE| :: code != IMPORTANCE[k];
  }

  lemma RankFollowsImportance(i: nat, j: nat, unknown: string)
    requires i < j < |IMPORTANCE| && unknown !in IMPORTANCE
    ensures FeatureRank(IMPORTANCE[i]) > FeatureRank(IMPORTANCE[j]) > FeatureRank(unknown)
  {
    RankAt(i);
    RankAt(j);
    UnknownLast(unknown);
  }

  /** The first place where two texts differ decides; a text comes before its continuations. */
  lemma {:induction false} PrecedesAtDifference(a: string, b: string)
    ensures Precedes(a, b) <==> exists k: nat :: DiffersAt(a, b, k)
  {
    if a != [] && b != [] && a[0] == b[0] {
      PrecedesAtDifference(a[1..], b[1..]);
      if k: nat :| DiffersAt(a[1..], b[1..], k) {
        var here := k + 1;
        assert a[..here] == [a[0]] + a[1..][..k] && b[..here] == [b[0]] + b[1..][..k];
        assert DiffersAt(a, b, here);
      }
      if k: nat :| DiffersAt(a, b, k) {
        assert k > 0;
        assert a[1..][..k - 1] == a[..k][1..] && b[1..][..k - 1] == b[..k][1..];
        assert DiffersAt(a[1..], b[1..], k - 1);
      }
    } else {
      assert DiffersAt(a, b, 0) <==> Precedes(a, b);
      forall k: nat | DiffersAt(a, b, k) ensures k == 0 {
        LaterDifference(a, b, k);
      }
    }
  }

  lemma LaterDifference(a: string, b: string, k: nat)
    requires DiffersAt(a, b, k)
    ensures k > 0 ==> a != [] && b != [] && a[0] == b[0]
  {
    if k > 0 { assert a[..k][0] == b[..k][0]; }
  }

  /** The texts agree up to `k`, and there `a` ends or has the smaller character. */
  predicate DiffersAt(a: string, b: string, k: nat) {
    k <= |a| && k < |b| && a[..k] == b[..k] && (k == |a| || a[k] < b[k])
  }

  /** More people win, whatever else; a row without a number loses to every row with one. */
  lemma MorePeopleWin(a: Row, b: Row)
    requires a.population.Some? && a.population.value >= 0
    requires b.population.None? || b.population.value < a.population.value
    ensures Beats(a, b) && !Beats(b, a)
  {
  }

  /** Among equally many people the feature decides, and among equal features the source id. */
  lemma ThenFeatureThenId(a: Row, b: Row)
    requires a.population == b.population
    ensures FeatureRank(a.featureCode) > FeatureRank(b.featureCode) ==> Beats(a, b)
    ensures FeatureRank(a.featureCode) == FeatureRank(b.featureCode) ==>
      (Beats(a, b) <==> Precedes(a.sourceId, b.sourceId))
  {
  }

  // ---- Merging ----

  /** First occurrences only, in order, as a list made from an insertion-ordered set. */
  function Unique(s: seq<string>): (r: seq<string>)
    ensures forall x :: x in r <==> x in s
  {
    if s == [] then []
    else
      var init, last := Unique(s[..|s| - 1]), s[|s| - 1];
      if last in init then init else init + [last]
  }

  function NonEmpty(s: seq<string>): (r: seq<string>)
    ensures forall x :: x in r <==> x in s && x != ""
  {
    if s == [] then [] else (if s[0] != "" then [s[0]] else []) + NonEmpty(s[1..])
  }

  function Cut(s: seq<string>): seq<string> { if |s| > MAX_ALIASES then s[..MAX_ALIASES] else s }

  function MergeCities(current: City, candidate: City): City {
    var candidateWins :=
      if Population(candidate.row) > Population(current.row) then true
      else if Population(candidate.row) < Population(current.row) then false
      else if FeatureRank(candidate.row.featureCode) > FeatureRank(current.row.featureCode) then true
      else if FeatureRank(candidate.row.featureCode) < FeatureRank(current.row.featureCode) then false
      else Precedes(candidate.row.sourceId, current.row.sourceId);
    var winner := if candidateWins then candidate else current;
    var loser := if candidateWins then current else candidate;
    City(winner.row, Cut(Unique(winner.aliases + loser.aliases)),
         Unique(NonEmpty(winner.normalizedAliases + loser.normalizedAliases)))
  }

  /** The search names of a city. */
  function Names(c: City): set<string> {
    set x | x in c.normalizedAliases && x != ""
  }

  lemma MergeKeepsBetter(a: City, b: City)
    ensures MergeCities(a, b).row == if Beats(b.row, a.row) then b.row else a.row
    ensures Names(MergeCities(a, b)) == Names(a) + Names(b)
  {
  }

  lemma {:induction false} UniqueOnce(s: seq<string>)
    ensures forall i, j | 0 <= i < j < |Unique(s)| :: Unique(s)[i] != Unique(s)[j]
    ensures (forall i, j | 0 <= i < j < |s| :: s[i] != s[j]) ==> Unique(s) == s
  {
    if s != [] {
      var init, last := s[..|s| - 1], s[|s| - 1];
      UniqueOnce(init);
      assert s == init + [last];
      if forall i, j | 0 <= i < j < |s| :: s[i] != s[j] {
        assert forall i | 0 <= i < |init| :: init[i] == s[i] != last;
      }
    }
  }

  lemma {:induction false} UniqueStarts(a: seq<string>, b: seq<string>)
    ensures Unique(a) <= Unique(a + b)
  {
    if b == [] {
      assert a + b == a;
    } else {
      assert (a + b)[..|a + b| - 1] == a + b[..|b| - 1];
      UniqueStarts(a, b[..|b| - 1]);
    }
  }

  /** The other names after a merge: at most 50, none twice, from the two rows, all of them if they are few enough. */
  lemma MergedAliases(a: City, b: City)
    ensures var merged := MergeCities(a, b).aliases;
      && |merged| <= 50
      && (forall i, j | 0 <= i < j < |merged| :: merged[i] != merged[j])
      && (forall x | x in merged :: x in a.aliases || x in b.aliases)
      && (|merged| < 50 ==> forall x | x in a.aliases || x in b.aliases :: x in merged)
  {
    CutUnique(a.aliases + b.aliases);
    CutUnique(b.aliases + a.aliases);
  }

  lemma CutUnique(s: seq<string>)
    ensures var r := Cut(Unique(s));
      && |r| <= 50
      && (forall i, j | 0 <= i < j < |r| :: r[i] != r[j])
      && (forall x | x in r :: x in s)
      && (|r| < 50 ==> forall x | x in s :: x in r)
  {
    UniqueOnce(s);
  }

  /** The better row's own names, none twice and at most 50, come first and are never cut. */
  lemma WinnerAliasesFirst(a: City, b: City)
    requires forall i, j | 0 <= i < j < |a.aliases| :: a.aliases[i] != a.aliases[j]
    requires |a.aliases| <= 50 && !Beats(b.row, a.row)
    ensures a.aliases <= MergeCities(a, b).aliases
  {
    UniqueOnce(a.aliases);
    UniqueStarts(a.aliases, b.aliases);
  }

  // ---- The fold over the file ----

  method Deduplicate(cities: seq<City>) returns (unique: map<string, City>, order: seq<string>)
    ensures unique == Folded(cities) && order == FirstSeen(cities)
  {
    unique, order := map[], [];
    for i := 0 to |cities|
      invariant unique == Folded(cities[..i]) && order == FirstSeen(cities[..i])
    {
      assert cities[..i + 1][..i] == cities[..i];
      var city := cities[i];
      var key := IdentityKey(city);
      SeenAreFolded(cities[..i]);
      if key in unique {
        unique := unique[key := MergeCities(unique[key], city)];
      } else {
        unique := unique[key := city];
        order := order + [key];
      }
    }
    assert cities[..|cities|] == cities;
  }

  function Folded(cities: seq<City>): map<string, City> {
    if cities == [] then map[]
    else
      var before, city := Folded(cities[..|cities| - 1]), cities[|cities| - 1];
      var key := IdentityKey(city);
      before[key := if key in before then MergeCities(before[key], city) else city]
  }

  /** The identity keys of the file in the order in which they first occur. */
  function FirstSeen(cities: seq<City>): seq<string> {
    if cities == [] then []
    else
      var before, key := FirstSeen(cities[..|cities| - 1]), IdentityKey(cities[|cities| - 1]);
      if key in before then before else before + [key]
  }

  /** They are the keys of the fold, each once. */
  lemma {:induction false} SeenAreFolded(cities: seq<City>)
    ensures forall k :: k in FirstSeen(cities) <==> k in Folded(cities)
    ensures forall i, j | 0 <= i < j < |FirstSeen(cities)| :: FirstSeen(cities)[i] != FirstSeen(cities)[j]
  {
    if cities != [] { SeenAreFolded(cities[..|cities| - 1]); }
  }

  /** The rows that compete for a key. */
  predicate Competes(cities: seq<City>, k: string, c: City) { c in cities && IdentityKey(c) == k }

  /** `c` carries the row no competitor beats and the names of all competitors. */
  ghost predicate Survives(cities: seq<City>, k: string, c: City) {
    && (exists w :: Competes(cities, k, w) && w.row == c.row)
    && (forall d | Competes(cities, k, d) :: !Beats(d.row, c.row))
    && (forall x :: x in Names(c) <==> exists d :: Competes(cities, k, d) && x in Names(d))
  }

  lemma SurvivesStep(cities: seq<City>, k: string, c: City, city: City)
    requires Survives(cities, k, c) && IdentityKey(city) == k
    ensures Survives(cities + [city], k, MergeCities(c, city))
  {
    var all, merged := cities + [city], MergeCities(c, city);
    assert forall d :: Competes(all, k, d) <==> Competes(cities, k, d) || d == city;
    MergeKeepsBetter(c, city);
    BeatsTotal(c.row, city.row);
    forall d | Competes(all, k, d) ensures !Beats(d.row, merged.row) {
      BeatsTotal(city.row, city.row);
      if Beats(city.row, c.row) && Beats(d.row, city.row) {
        BeatsTransitive(d.row, city.row, c.row);
      }
    }
    forall x ensures x in Names(merged) <==> exists d :: Competes(all, k, d) && x in Names(d) {
      assert x in Names(city) ==> Competes(all, k, city);
    }
  }

  lemma {:induction false} FoldedSurvives(cities: seq<City>, k: string)
    ensures k in Folded(cities) <==> exists c :: Competes(cities, k, c)
    ensures k in Folded(cities) ==> Survives(cities, k, Folded(cities)[k])
  {
    if cities != [] {
      var init, city := cities[..|cities| - 1], cities[|cities| - 1];
      FoldedSurvives(init, k);
      assert cities == init + [city];
      assert forall d :: Competes(cities, k, d) <==> Competes(init, k, d) || (d == city && IdentityKey(city) == k);
      if IdentityKey(city) == k {
        if k in Folded(init) {
          SurvivesStep(init, k, Folded(init)[k], city);
        } else {
          BeatsTotal(city.row, city.row);
          assert Competes(cities, k, city);
        }
      }
    }
  }

  /** Rows of one key carry different source ids. */
  ghost predicate DistinctSources(cities: seq<City>) {
    forall c, d | c in cities && d in cities && IdentityKey(c) == IdentityKey(d)
      && c.row.sourceId == d.row.sourceId :: c.row == d.row
  }

  /** At most one row can survive for a key. */
  lemma SurvivorUnique(cities: seq<City>, k: string, a: City, b: City)
    requires DistinctSources(cities) && Survives(cities, k, a) && Survives(cities, k, b)
    ensures a.row == b.row && Names(a) == Names(b)
  {
    var v :| Competes(cities, k, v) && v.row == a.row;
    var w :| Competes(cities, k, w) && w.row == b.row;
    BeatsTotal(v.row, w.row);
  }

  /** Any order of the file leaves the same keys, and for each the same row and the same search names. */
  lemma OrderIrrelevant(file: seq<City>, shuffled: seq<City>)
    requires multiset(file) == multiset(shuffled) && DistinctSources(file)
    ensures Folded(file).Keys == Folded(shuffled).Keys
    ensures forall k | k in Folded(file) ::
      Folded(file)[k].row == Folded(shuffled)[k].row && Names(Folded(file)[k]) == Names(Folded(shuffled)[k])
  {
    forall c ensures c in file <==> c in shuffled {
      assert c in file <==> c in multiset(file);
      assert c in shuffled <==> c in multiset(shuffled);
    }
    assert forall k, c :: Competes(file, k, c) <==> Competes(shuffled, k, c);
    forall k
      ensures k in Folded(file) <==> k in Folded(shuffled)
      ensures k in Folded(file) ==>
        Folded(file)[k].row == Folded(shuffled)[k].row && Names(Folded(file)[k]) == Names(Folded(shuffled)[k])
    {
      FoldedSurvives(file, k);
      FoldedSurvives(shuffled, k);
      if k in Folded(file) {
        SurvivorUnique(file, k, Folded(file)[k], Folded(shuffled)[k]);
      }
    }
  }
}
