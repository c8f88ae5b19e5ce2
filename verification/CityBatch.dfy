/** From the file of rows to the cities an import run works through. */
module CityBatch {
  import opened CityDedupe
  import opened CityKeys
  import opened CityCollisions

  /** The key a name gives rise to. */
  type KeyOf = string -> string

  function Prepared(c: City, keyOf: KeyOf): Incoming {
    Incoming(keyOf(c.row.name), c.row.sourceId, c.row.name, c.row.countryCode)
  }

  /** The deduplicated cities in the order in which their keys first occur. */
  function Batch(file: seq<City>, keyOf: KeyOf): seq<Incoming> {
    SeenAreFolded(file);
    var unique, order := Folded(file), FirstSeen(file);
    seq(|order|, i requires 0 <= i < |order| => Prepared(unique[order[i]], keyOf))
  }

  lemma BatchListsFolded(file: seq<City>, keyOf: KeyOf)
    ensures forall k :: k in FirstSeen(file) <==> k in Folded(file)
    ensures |Batch(file, keyOf)| == |FirstSeen(file)|
    ensures forall i | 0 <= i < |FirstSeen(file)| ::
      Batch(file, keyOf)[i] == Prepared(Folded(file)[FirstSeen(file)[i]], keyOf)
  {
    SeenAreFolded(file);
  }

  /** What survives under a key is a row of the file with that key. */
  lemma SurvivorOfKey(file: seq<City>, k: string) returns (w: City)
    requires k in Folded(file)
    ensures w in file && w.row == Folded(file)[k].row && IdentityKey(w) == k == IdentityKey(Folded(file)[k])
  {
    FoldedSurvives(file, k);
    w :| Competes(file, k, w) && w.row == Folded(file)[k].row;
  }

  lemma FoldConcat(a: string, b: string)
    ensures Fold(a + b) == Fold(a) + Fold(b)
  {
  }

  /** Within a country two rows share their key exactly when their names are equal up to case. */
  lemma SameKeyIffSameName(a: City, b: City)
    requires a.row.countryCode == b.row.countryCode
    ensures IdentityKey(a) == IdentityKey(b) <==> Fold(a.row.name) == Fold(b.row.name)
  {
    var before := a.row.countryCode + ":";
    FoldConcat(before, a.row.name);
    FoldConcat(before, b.row.name);
    assert IdentityKey(a)[|before|..] == Fold(a.row.name) && IdentityKey(b)[|before|..] == Fold(b.row.name);
  }

  ghost predicate OneCountry(file: seq<City>) {
    forall c, d | c in file && d in file :: c.row.countryCode == d.row.countryCode
  }

  /** A source id belongs to one city. */
  ghost predicate SourcesIdentify(file: seq<City>) {
    forall c, d | c in file && d in file && c.row.sourceId == d.row.sourceId :: IdentityKey(c) == IdentityKey(d)
  }

  /**
   * Of one country, no two cities that deduplication leaves have the same name up to case: they share an
   * identity only through their source ids.
   */
  lemma BatchNamesDiffer(file: seq<City>, keyOf: KeyOf, i: nat, j: nat)
    requires OneCountry(file) && i < j < |Batch(file, keyOf)|
    ensures var batch := Batch(file, keyOf);
      && Fold(batch[i].name) != Fold(batch[j].name)
      && (Same(batch[i], batch[j]) <==> batch[i].sourceId == batch[j].sourceId)
      && (SourcesIdentify(file) ==> !Same(batch[i], batch[j]))
  {
    BatchListsFolded(file, keyOf);
    SeenAreFolded(file);
    var order := FirstSeen(file);
    var v := SurvivorOfKey(file, order[i]);
    var w := SurvivorOfKey(file, order[j]);
    SameKeyIffSameName(v, w);
  }

  /** What is left of a file of one country is fit for the import, given a key for every name. */
  lemma BatchIsDifferent(file: seq<City>, keyOf: KeyOf)
    requires OneCountry(file) && SourcesIdentify(file)
    requires forall c | c in file :: keyOf(c.row.name) != ""
    ensures DifferentCities(Batch(file, keyOf))
  {
    var batch := Batch(file, keyOf);
    BatchListsFolded(file, keyOf);
    forall i | 0 <= i < |batch| ensures batch[i].key != "" {
      var w := SurvivorOfKey(file, FirstSeen(file)[i]);
    }
    forall i, j | 0 <= i < j < |batch| ensures !Same(batch[i], batch[j]) {
      BatchNamesDiffer(file, keyOf, i, j);
    }
  }

  /**
   * The script from the file to the keys: whatever is stored, a run that is not stopped gives every
   * deduplicated city a key of its own and stores it there.
   */
  lemma ScriptKeysDistinct(file: seq<City>, keyOf: KeyOf, docs: seq<Doc>, lookup: Lookup)
    requires Answers(lookup) && Indexed(docs) && OneCountry(file) && SourcesIdentify(file)
    requires forall c | c in file :: keyOf(c.row.name) != ""
    requires ImportRun(docs, Batch(file, keyOf), lookup).Ok?
    ensures Assigned(ImportRun(docs, Batch(file, keyOf), lookup).value.0.docs, Batch(file, keyOf),
                     ImportRun(docs, Batch(file, keyOf), lookup).value.1)
  {
    var limit := MAX_SUFFIX;
    BatchIsDifferent(file, keyOf);
    CompletedRunDistinct(docs, Batch(file, keyOf), lookup, limit);
  }
}
