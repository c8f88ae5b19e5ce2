/**
 * Scoring, deduplication and greedy selection of insights, and why greedy is optimal: no admissible
 * choice of at most four has a larger total score.
 */
module Insights {
  import opened Common

  datatype InsightType = Demand | Opportunity | Performance | Growth | Risk | Promotion
  datatype Audience = Everyone | ProviderOnly | ClientOnly | GuestOnly
  datatype Viewer = ProviderViewer | ClientViewer | GuestViewer

  datatype Raw = Raw(kind: InsightType, audience: Audience, contextKey: string, templateKey: string,
                     businessImpact: real, userRelevance: real, confidence: real, freshness: real)
  datatype Insight = Insight(raw: Raw, score: nat)

  /** Insights about the same thing for the same audience; no audience name contains the separator. */
  datatype Key = Key(contextKey: string, audience: Audience)

  const MAX_INSIGHTS: nat := 4

  // ---- Scoring ----

  /** Round to the nearest integer, halves up, and clamp to 0..100. */
  function RoundScore(weighted: real): (n: nat)
    ensures n <= 100
    ensures 0.0 <= weighted <= 100.0 ==> -0.5 <= weighted - n as real < 0.5
    ensures weighted < 0.0 ==> n == 0
    ensures weighted > 100.0 ==> n == 100
  {
    var rounded := (weighted + 0.5).Floor;
    if rounded < 0 then 0 else if rounded > 100 then 100 else rounded
  }

  function Score(item: Raw): Insight {
    Insight(item, RoundScore(item.businessImpact * 0.35 + item.userRelevance * 0.3
                             + item.confidence * 0.2 + item.freshness * 0.15))
  }

  /** The score is a weighted mean: it lies between the rounded bounds of the four components. */
  lemma ScoreBetween(item: Raw, low: real, high: real)
    requires low <= item.businessImpact <= high && low <= item.userRelevance <= high
    requires low <= item.confidence <= high && low <= item.freshness <= high
    ensures RoundScore(low) <= Score(item).score <= RoundScore(high)
  {
    var weighted := item.businessImpact * 0.35 + item.userRelevance * 0.3 + item.confidence * 0.2
      + item.freshness * 0.15;
    assert low <= weighted <= high;
  }

  /** The score is the whole number nearest to the weighted sum, in hundredths of 35, 30, 20 and 15, halves up. */
  lemma ScoreNearest(item: Raw)
    ensures var weighted := 35.0 * item.businessImpact + 30.0 * item.userRelevance + 20.0 * item.confidence
      + 15.0 * item.freshness;
      && (0.0 <= weighted <= 10000.0 ==> -50.0 <= weighted - 100.0 * Score(item).score as real < 50.0)
      && (weighted < 0.0 ==> Score(item).score == 0) && (weighted > 10000.0 ==> Score(item).score == 100)
      && Score(item).raw == item
  {
  }

  function TypeRank(t: InsightType): nat {
    match t
    case Opportunity => 6
    case Performance => 5
    case Demand => 4
    case Growth => 3
    case Promotion => 2
    case Risk => 1
  }

  function KeyOf(x: Insight): Key { Key(x.raw.contextKey, x.raw.audience) }

  /** A later insight replaces an earlier one of the same key. */
  predicate Replaces(x: Insight, y: Insight) {
    x.score > y.score || (x.score == y.score && TypeRank(x.raw.kind) > TypeRank(y.raw.kind))
  }

  predicate AudienceAllowed(a: Audience, viewer: Viewer) {
    match a
    case Everyone => true
    case ProviderOnly => viewer == ProviderViewer
    case ClientOnly => viewer == ClientViewer
    case GuestOnly => viewer == GuestViewer
  }

  /** The types from the most to the least welcome. */
  const WELCOME := [Opportunity, Performance, Demand, Growth, Promotion, Risk]

  /** Of two insights about the same thing the higher score wins, and of equal scores the more welcome type. */
  lemma ReplacesIff(x: Insight, y: Insight, i: nat, j: nat)
    requires i < |WELCOME| && j < |WELCOME| && x.raw.kind == WELCOME[i] && y.raw.kind == WELCOME[j]
    ensures Replaces(x, y) <==> x.score > y.score || (x.score == y.score && i < j)
  {
  }

  /** An insight is for everyone or for one kind of viewer. */
  lemma AllowedIff(a: Audience, viewer: Viewer)
    ensures AudienceAllowed(a, viewer) <==>
      a == Everyone || (a, viewer) in {(ProviderOnly, ProviderViewer), (ClientOnly, ClientViewer),
                                       (GuestOnly, GuestViewer)}
  {
  }

  /** Two insights are about the same thing when context and audience agree, whatever their type or wording. */
  lemma SameKeyIff(x: Insight, y: Insight)
    ensures KeyOf(x) == KeyOf(y) <==> x.raw.contextKey == y.raw.contextKey && x.raw.audience == y.raw.audience
  {
  }

  // ---- Stable sort by descending score ----

  ghost predicate Descending(items: seq<Insight>) {
    forall i, j | 0 <= i < j < |items| :: items[i].score >= items[j].score
  }

  /** Insert before the first strictly smaller score. */
  function InsertDescending(items: seq<Insight>, x: Insight): (r: seq<Insight>)
    ensures multiset(r) == multiset(items) + multiset{x}
  {
    if items == [] then [x]
    else if items[0].score < x.score then [x] + items
    else
      assert items == [items[0]] + items[1..];
      [items[0]] + InsertDescending(items[1..], x)
  }

  function SortDescending(items: seq<Insight>): (r: seq<Insight>)
    ensures multiset(r) == multiset(items)
  {
    if items == [] then []
    else
      assert items == items[..|items| - 1] + [items[|items| - 1]];
      InsertDescending(SortDescending(items[..|items| - 1]), items[|items| - 1])
  }

  lemma {:induction false} InsertKeepsDescending(items: seq<Insight>, x: Insight)
    requires Descending(items)
    ensures Descending(InsertDescending(items, x))
  {
    if items != [] && items[0].score >= x.score {
      InsertKeepsDescending(items[1..], x);
      var rest := InsertDescending(items[1..], x);
      forall y | y in rest ensures y.score <= items[0].score {
        assert y in multiset(rest);
        assert y in multiset(items[1..]) || y == x;
      }
    }
  }

  lemma {:induction false} SortSorts(items: seq<Insight>)
    ensures Descending(SortDescending(items))
  {
    if items != [] {
      SortSorts(items[..|items| - 1]);
      InsertKeepsDescending(SortDescending(items[..|items| - 1]), items[|items| - 1]);
    }
  }

  /** The insights of one score, in order. */
  function Scoring(items: seq<Insight>, score: nat): seq<Insight> {
    if items == [] then [] else (if items[0].score == score then [items[0]] else []) + Scoring(items[1..], score)
  }

  function Only(x: Insight, score: nat): seq<Insight> { if x.score == score then [x] else [] }

  lemma ScoringCons(x: Insight, rest: seq<Insight>, score: nat)
    ensures Scoring([x] + rest, score) == Only(x, score) + Scoring(rest, score)
  {
    assert ([x] + rest)[1..] == rest;
  }

  lemma Associate(a: seq<Insight>, b: seq<Insight>, c: seq<Insight>)
    ensures a + (b + c) == (a + b) + c
  {
  }

  lemma {:induction false} ScoringAppends(a: seq<Insight>, b: seq<Insight>, score: nat)
    ensures Scoring(a + b, score) == Scoring(a, score) + Scoring(b, score)
  {
    if a == [] {
      assert a + b == b;
    } else {
      ScoringAppends(a[1..], b, score);
      assert a == [a[0]] + a[1..];
      Associate([a[0]], a[1..], b);
      ScoringCons(a[0], a[1..], score);
      ScoringCons(a[0], a[1..] + b, score);
      Associate(Only(a[0], score), Scoring(a[1..], score), Scoring(b, score));
    }
  }

  lemma {:induction false} InsertGoesLast(items: seq<Insight>, x: Insight, score: nat)
    requires Descending(items)
    ensures Scoring(InsertDescending(items, x), score) == Scoring(items, score) + Only(x, score)
  {
    if items == [] {
      assert [x] + [] == [x];
      ScoringCons(x, [], score);
    } else if items[0].score < x.score {
      NoneScoring(items, x.score);
      ScoringCons(x, items, score);
    } else {
      var rest := items[1..];
      assert items == [items[0]] + rest;
      InsertGoesLast(rest, x, score);
      ScoringCons(items[0], rest, score);
      ScoringCons(items[0], InsertDescending(rest, x), score);
      Associate(Only(items[0], score), Scoring(rest, score), Only(x, score));
    }
  }

  lemma {:induction false} NoneScoring(items: seq<Insight>, score: nat)
    requires forall i | 0 <= i < |items| :: items[i].score < score
    ensures Scoring(items, score) == []
  {
    if items != [] { NoneScoring(items[1..], score); }
  }

  lemma ScoringLast(items: seq<Insight>, score: nat)
    requires items != []
    ensures Scoring(items, score) == Scoring(items[..|items| - 1], score) + Only(items[|items| - 1], score)
  {
    var init, last := items[..|items| - 1], items[|items| - 1];
    ScoringAppends(init, [last], score);
    assert items == init + [last] && [last] + [] == [last];
    ScoringCons(last, [], score);
  }

  /** Sorting leaves insights of equal score in their order. */
  lemma {:induction false} SortIsStable(items: seq<Insight>, score: nat)
    ensures Scoring(SortDescending(items), score) == Scoring(items, score)
  {
    if items != [] {
      var init, last := items[..|items| - 1], items[|items| - 1];
      var sorted := SortDescending(init);
      SortIsStable(init, score);
      SortSorts(init);
      InsertGoesLast(sorted, last, score);
      ScoringLast(items, score);
    }
  }

  lemma SortKeepsMembers(items: seq<Insight>)
    ensures forall x :: x in SortDescending(items) <==> x in items
    ensures |SortDescending(items)| == |items|
  {
    assert forall x :: x in SortDescending(items) <==> x in multiset(SortDescending(items));
    assert forall x :: x in items <==> x in multiset(items);
    assert |SortDescending(items)| == |multiset(SortDescending(items))|;
    assert |items| == |multiset(items)|;
  }

  // ---- Deduplication ----

  /** Among the first `n` insights with its key, the one at `p` is the earliest that none of them replaces. */
  ghost predicate Best(items: seq<Insight>, p: nat, n: nat)
    requires n <= |items|
  {
    && p < n
    && (forall q | 0 <= q < n && KeyOf(items[q]) == KeyOf(items[p]) :: !Replaces(items[q], items[p]))
    && (forall q | 0 <= q < p && KeyOf(items[q]) == KeyOf(items[p]) :: Replaces(items[p], items[q]))
  }

  predicate DistinctKeys(items: seq<Insight>) {
    forall i, j | 0 <= i < j < |items| :: KeyOf(items[i]) != KeyOf(items[j])
  }

  predicate HasKey(kept: seq<Insight>, k: Key) {
    exists j :: 0 <= j < |kept| && KeyOf(kept[j]) == k
  }

  lemma KeysGrow(before: seq<Insight>, after: seq<Insight>, k: Key, at: nat)
    requires |before| <= |after| && at < |after| && KeyOf(after[at]) == k
    requires forall j | 0 <= j < |before| :: KeyOf(before[j]) == KeyOf(after[j])
    ensures HasKey(after, k) && forall other :: HasKey(before, other) ==> HasKey(after, other)
  {
    forall other | HasKey(before, other) ensures HasKey(after, other) {
      var j :| 0 <= j < |before| && KeyOf(before[j]) == other;
      assert KeyOf(after[j]) == other;
    }
  }

  method FindKey(kept: seq<Insight>, k: Key) returns (at: nat)
    ensures at <= |kept| && (at < |kept| ==> KeyOf(kept[at]) == k)
    ensures forall j | 0 <= j < at :: KeyOf(kept[j]) != k
  {
    at := 0;
    while at < |kept| && KeyOf(kept[at]) != k
      invariant at <= |kept| && forall j | 0 <= j < at :: KeyOf(kept[j]) != k
    {
      at := at + 1;
    }
  }

  /** How the best insight of a key changes when the one at `n` is looked at. */
  lemma BestStep(items: seq<Insight>, p: nat, n: nat)
    requires n < |items| && Best(items, p, n)
    ensures if KeyOf(items[n]) == KeyOf(items[p]) && Replaces(items[n], items[p]) then Best(items, n, n + 1)
            else Best(items, p, n + 1)
  {
  }

  /** What the pass has built from the first `n` insights; `from` is where each kept one stands. */
  ghost predicate Deduped(items: seq<Insight>, n: nat, kept: seq<Insight>, from: seq<nat>) {
    && n <= |items| && |from| == |kept| && DistinctKeys(kept)
    && (forall j | 0 <= j < |kept| :: Best(items, from[j], n) && kept[j] == items[from[j]])
    && (forall q | 0 <= q < n :: HasKey(kept, KeyOf(items[q])))
  }

  lemma DedupeAppend(items: seq<Insight>, n: nat, kept: seq<Insight>, from: seq<nat>)
    requires n < |items| && Deduped(items, n, kept, from) && !HasKey(kept, KeyOf(items[n]))
    ensures Deduped(items, n + 1, kept + [items[n]], from + [n])
  {
    forall j | 0 <= j < |kept| ensures KeyOf(kept[j]) != KeyOf(items[n]) && Best(items, from[j], n + 1) {
      BestStep(items, from[j], n);
    }
    assert Best(items, n, n + 1) by {
      assert forall q | 0 <= q < n :: HasKey(kept, KeyOf(items[q]));
    }
    KeysGrow(kept, kept + [items[n]], KeyOf(items[n]), |kept|);
  }

  lemma DedupeMeet(items: seq<Insight>, n: nat, kept: seq<Insight>, from: seq<nat>, at: nat)
    requires n < |items| && Deduped(items, n, kept, from)
    requires at < |kept| && KeyOf(kept[at]) == KeyOf(items[n])
    ensures if Replaces(items[n], kept[at]) then Deduped(items, n + 1, kept[at := items[n]], from[at := n])
            else Deduped(items, n + 1, kept, from)
  {
    forall j | 0 <= j < |kept| ensures j != at ==> KeyOf(kept[j]) != KeyOf(items[n]) && Best(items, from[j], n + 1) {
      BestStep(items, from[j], n);
    }
    BestStep(items, from[at], n);
    KeysGrow(kept, kept[at := items[n]], KeyOf(items[n]), at);
    KeysGrow(kept, kept, KeyOf(items[n]), at);
  }

  /** One pass over a map that lists its keys in the order they were first seen. */
  method KeepBest(items: seq<Insight>) returns (kept: seq<Insight>)
    ensures DistinctKeys(kept)
    ensures forall x | x in kept :: exists p :: 0 <= p < |items| && x == items[p] && Best(items, p, |items|)
    ensures forall y | y in items :: HasKey(kept, KeyOf(y))
  {
    kept := [];
    ghost var from: seq<nat> := [];
    for i := 0 to |items|
      invariant Deduped(items, i, kept, from)
    {
      var at := FindKey(kept, KeyOf(items[i]));
      if at == |kept| {
        DedupeAppend(items, i, kept, from);
        kept, from := kept + [items[i]], from + [i];
      } else {
        DedupeMeet(items, i, kept, from, at);
        if Replaces(items[i], kept[at]) {
          kept, from := kept[at := items[i]], from[at := i];
        }
      }
    }
  }

  lemma {:induction false} InsertKeepsDistinctKeys(items: seq<Insight>, x: Insight)
    requires DistinctKeys(items) && !HasKey(items, KeyOf(x))
    ensures DistinctKeys(InsertDescending(items, x))
  {
    if items != [] && items[0].score >= x.score {
      assert forall j | 0 <= j < |items[1..]| :: KeyOf(items[1..][j]) == KeyOf(items[j + 1]);
      InsertKeepsDistinctKeys(items[1..], x);
      var rest := InsertDescending(items[1..], x);
      forall y | y in rest ensures KeyOf(y) != KeyOf(items[0]) {
        assert y in multiset(rest);
        assert y in multiset(items[1..]) || y == x;
      }
    }
  }

  lemma SortKeepsKeys(items: seq<Insight>)
    ensures forall k :: HasKey(SortDescending(items), k) <==> HasKey(items, k)
  {
    var sorted := SortDescending(items);
    SortKeepsMembers(items);
    forall k ensures HasKey(sorted, k) <==> HasKey(items, k) {
      if j: nat :| j < |sorted| && KeyOf(sorted[j]) == k { assert sorted[j] in items; }
      if j: nat :| j < |items| && KeyOf(items[j]) == k { assert items[j] in sorted; }
    }
  }

  lemma {:induction false} SortKeepsDistinctKeys(items: seq<Insight>)
    requires DistinctKeys(items)
    ensures DistinctKeys(SortDescending(items))
  {
    if items != [] {
      var init, last := items[..|items| - 1], items[|items| - 1];
      SortKeepsDistinctKeys(init);
      SortKeepsKeys(init);
      InsertKeepsDistinctKeys(SortDescending(init), last);
    }
  }

  /** One insight per key, its best, in descending order of score. */
  method Dedupe(items: seq<Insight>) returns (kept: seq<Insight>)
    ensures Descending(kept) && DistinctKeys(kept)
    ensures forall x | x in kept :: exists p :: 0 <= p < |items| && x == items[p] && Best(items, p, |items|)
    ensures forall y | y in items :: HasKey(kept, KeyOf(y))
  {
    var best := KeepBest(items);
    SortSorts(best);
    SortKeepsDistinctKeys(best);
    SortKeepsMembers(best);
    SortKeepsKeys(best);
    kept := SortDescending(best);
  }

  // ---- Greedy selection ----

  /** Whether the running selection still takes an insight of this type. */
  predicate Admits(t: InsightType, promotions: nat, risks: nat) {
    !(t == Promotion && promotions >= 1) && !(t == Risk && risks >= 1)
  }

  function One(b: bool): nat { if b then 1 else 0 }

  /** The greedy choice among `items` with `slots` places left. */
  function Greedy(items: seq<Insight>, slots: nat, promotions: nat, risks: nat): seq<Insight>
    decreases |items|
  {
    if items == [] || slots == 0 then []
    else
      var x := items[0];
      if !Admits(x.raw.kind, promotions, risks) then Greedy(items[1..], slots, promotions, risks)
      else
        [x] + Greedy(items[1..], slots - 1,
                     promotions + One(x.raw.kind == Promotion), risks + One(x.raw.kind == Risk))
  }

  /** `whole` is what has been `taken` and the greedy choice from the `i`-th insight on. */
  ghost predicate Remains(whole: seq<Insight>, taken: seq<Insight>, items: seq<Insight>, i: nat, slots: nat,
                          promotions: nat, risks: nat) {
    i <= |items| && whole == taken + Greedy(items[i..], slots, promotions, risks)
  }

  lemma ScanSkips(whole: seq<Insight>, taken: seq<Insight>, items: seq<Insight>, i: nat, slots: nat, promotions: nat,
                  risks: nat)
    requires i < |items| && Remains(whole, taken, items, i, slots, promotions, risks)
    requires !Admits(items[i].raw.kind, promotions, risks)
    ensures Remains(whole, taken, items, i + 1, slots, promotions, risks)
  {
    assert items[i..][1..] == items[i + 1..];
  }

  lemma ScanTakes(whole: seq<Insight>, taken: seq<Insight>, items: seq<Insight>, i: nat, slots: nat, promotions: nat,
                  risks: nat)
    requires i < |items| && slots > 0 && Remains(whole, taken, items, i, slots, promotions, risks)
    requires Admits(items[i].raw.kind, promotions, risks)
    ensures Remains(whole, taken + [items[i]], items, i + 1, slots - 1,
                    promotions + One(items[i].raw.kind == Promotion), risks + One(items[i].raw.kind == Risk))
  {
    assert items[i..][1..] == items[i + 1..];
  }

  lemma ScanEnds(whole: seq<Insight>, taken: seq<Insight>, items: seq<Insight>, i: nat, slots: nat, promotions: nat,
                 risks: nat)
    requires Remains(whole, taken, items, i, slots, promotions, risks) && (i == |items| || slots == 0)
    ensures whole == taken
  {
  }

  method LimitByPriorityAndType(items: seq<Insight>, limit: nat) returns (result: seq<Insight>)
    requires limit > 0
    ensures result == Greedy(SortDescending(items), limit, 0, 0)
  {
    result := TakeGreedily(SortDescending(items), limit);
  }

  /** The loop over the sorted insights. */
  method TakeGreedily(sorted: seq<Insight>, limit: nat) returns (result: seq<Insight>)
    requires limit > 0
    ensures result == Greedy(sorted, limit, 0, 0)
  {
    result := [];
    var promotions: nat, risks: nat := 0, 0;
    ghost var whole := Greedy(sorted, limit, 0, 0);
    assert sorted[0..] == sorted;
    for i := 0 to |sorted|
      invariant |result| < limit && Remains(whole, result, sorted, i, limit - |result|, promotions, risks)
    {
      var item := sorted[i];
      if !Admits(item.raw.kind, promotions, risks) {
        ScanSkips(whole, result, sorted, i, limit - |result|, promotions, risks);
      } else {
        ScanTakes(whole, result, sorted, i, limit - |result|, promotions, risks);
      }
      if item.raw.kind == Promotion && promotions >= 1 { continue; }
      if item.raw.kind == Risk && risks >= 1 { continue; }
      result := result + [item];
      if item.raw.kind == Promotion { promotions := promotions + 1; }
      if item.raw.kind == Risk { risks := risks + 1; }
      if |result| >= limit {
        ScanEnds(whole, result, sorted, i + 1, 0, promotions, risks);
        return;
      }
    }
    ScanEnds(whole, result, sorted, |sorted|, limit - |result|, promotions, risks);
  }

  // ---- Optimality ----

  function Sum(items: seq<Insight>): nat {
    if items == [] then 0 else items[0].score + Sum(items[1..])
  }

  function CountOf(t: InsightType, items: seq<Insight>): nat {
    if items == [] then 0 else One(items[0].raw.kind == t) + CountOf(t, items[1..])
  }

  /** A choice from `items` that the quotas left over allow. */
  ghost predicate Admissible(items: seq<Insight>, choice: seq<Insight>, slots: nat, promotions: nat, risks: nat) {
    && multiset(choice) <= multiset(items)
    && |choice| <= slots
    && promotions + CountOf(Promotion, choice) <= Max(1, promotions)
    && risks + CountOf(Risk, choice) <= Max(1, risks)
  }

  function Without(s: seq<Insight>, k: nat): seq<Insight>
    requires k < |s|
  {
    s[..k] + s[k + 1..]
  }

  lemma {:induction false} DropOne(s: seq<Insight>, k: nat)
    requires k < |s|
    ensures Sum(s) == Sum(Without(s, k)) + s[k].score
    ensures forall t :: CountOf(t, s) == CountOf(t, Without(s, k)) + One(s[k].raw.kind == t)
    ensures multiset(s) == multiset(Without(s, k)) + multiset{s[k]}
  {
    assert s == s[..k] + [s[k]] + s[k + 1..];
    if k == 0 {
      assert Without(s, 0) == s[1..];
    } else {
      DropOne(s[1..], k - 1);
      assert Without(s, k)[0] == s[0] && Without(s, k)[1..] == Without(s[1..], k - 1);
    }
  }

  lemma {:induction false} FindType(t: InsightType, s: seq<Insight>) returns (k: nat)
    requires CountOf(t, s) > 0
    ensures k < |s| && s[k].raw.kind == t
  {
    k := 0;
    if s[0].raw.kind != t {
      k := FindType(t, s[1..]);
      k := k + 1;
    }
  }

  /** Which member of a choice gives way to `x`: `x` itself, else one of its type, else any. */
  lemma GivesWay(choice: seq<Insight>, x: Insight) returns (k: nat)
    requires choice != []
    ensures k < |choice|
    ensures x in choice ==> choice[k] == x
    ensures x !in choice && CountOf(x.raw.kind, choice) > 0 ==> choice[k].raw.kind == x.raw.kind
  {
    k := 0;
    if x in choice {
      k :| 0 <= k < |choice| && choice[k] == x;
    } else if CountOf(x.raw.kind, choice) > 0 {
      k := FindType(x.raw.kind, choice);
    }
  }

  /** Giving up `x` leaves a choice from what is left of `items` without its head `x`. */
  lemma SubWithout(items: seq<Insight>, choice: seq<Insight>, k: nat)
    requires items != [] && k < |choice| && multiset(choice) <= multiset(items)
    requires items[0] in choice ==> choice[k] == items[0]
    ensures multiset(Without(choice, k)) <= multiset(items[1..])
  {
    DropOne(choice, k);
    var x, m, n := items[0], multiset(items), multiset(items[1..]);
    assert items == [x] + items[1..];
    assert m == multiset{x} + n;
    var c, w := multiset(choice), multiset(Without(choice, k));
    assert c == w + multiset{choice[k]};
    forall y ensures w[y] <= n[y] {
      assert c[y] <= m[y];
      if y == x && choice[k] != x { assert x !in choice && x !in c; }
    }
  }

  /** A choice made from all of `items` shrinks to one from the rest once the head has been taken. */
  lemma Shrink(items: seq<Insight>, choice: seq<Insight>, slots: nat, promotions: nat, risks: nat)
    returns (less: seq<Insight>)
    requires items != [] && slots > 0 && Admissible(items, choice, slots, promotions, risks)
    requires Admits(items[0].raw.kind, promotions, risks)
    requires forall y | y in items :: y.score <= items[0].score
    ensures Admissible(items[1..], less, slots - 1, promotions + One(items[0].raw.kind == Promotion),
                       risks + One(items[0].raw.kind == Risk))
    ensures Sum(choice) <= items[0].score + Sum(less)
  {
    var x := items[0];
    less := choice;
    if choice != [] {
      var k := GivesWay(choice, x);
      DropOne(choice, k);
      SubWithout(items, choice, k);
      less := Without(choice, k);
      assert CountOf(Promotion, choice) == CountOf(Promotion, less) + One(choice[k].raw.kind == Promotion);
      assert CountOf(Risk, choice) == CountOf(Risk, less) + One(choice[k].raw.kind == Risk);
      assert choice[k].score <= x.score by {
        assert choice[k] in multiset(choice) && choice[k] in multiset(items);
      }
    }
  }

  /** An insight the quotas refuse is in no admissible choice. */
  lemma Refused(items: seq<Insight>, choice: seq<Insight>, slots: nat, promotions: nat, risks: nat)
    requires items != [] && Admissible(items, choice, slots, promotions, risks)
    requires !Admits(items[0].raw.kind, promotions, risks)
    ensures Admissible(items[1..], choice, slots, promotions, risks)
  {
    assert items == [items[0]] + items[1..];
    if items[0] in choice {
      var k :| 0 <= k < |choice| && choice[k] == items[0];
      DropOne(choice, k);
    }
    assert items[0] !in multiset(choice);
  }

  /** In a list in order, everything after the head is in order and comes after it. */
  lemma HeadFirst(items: seq<Insight>)
    requires items != []
    ensures Descending(items) ==> Descending(items[1..]) && forall y | y in items[1..] :: y.score <= items[0].score
    ensures DistinctKeys(items) ==>
      DistinctKeys(items[1..]) && forall y | y in items[1..] :: KeyOf(y) != KeyOf(items[0])
  {
    var rest := items[1..];
    assert forall i | 0 <= i < |rest| :: rest[i] == items[i + 1];
  }

  lemma SumOfGreedy(items: seq<Insight>, slots: nat, promotions: nat, risks: nat)
    requires items != [] && slots > 0 && Admits(items[0].raw.kind, promotions, risks)
    ensures Sum(Greedy(items, slots, promotions, risks))
         == items[0].score + Sum(Greedy(items[1..], slots - 1, promotions + One(items[0].raw.kind == Promotion),
                                        risks + One(items[0].raw.kind == Risk)))
  {
    var rest := Greedy(items[1..], slots - 1, promotions + One(items[0].raw.kind == Promotion),
                       risks + One(items[0].raw.kind == Risk));
    assert ([items[0]] + rest)[1..] == rest;
  }

  lemma ChoiceNeedsItems(items: seq<Insight>, choice: seq<Insight>, slots: nat, promotions: nat, risks: nat)
    requires Admissible(items, choice, slots, promotions, risks) && choice != []
    ensures items != [] && slots > 0
  {
    assert choice[0] in multiset(choice);
  }

  /** On a descending list no admissible choice beats the greedy one. */
  lemma {:induction false} GreedyDominates(items: seq<Insight>, choice: seq<Insight>, slots: nat, promotions: nat,
                                           risks: nat)
    requires Descending(items) && Admissible(items, choice, slots, promotions, risks)
    ensures Sum(choice) <= Sum(Greedy(items, slots, promotions, risks))
    decreases |items|
  {
    if choice != [] {
      ChoiceNeedsItems(items, choice, slots, promotions, risks);
      HeadFirst(items);
      var x, rest := items[0], items[1..];
      if !Admits(x.raw.kind, promotions, risks) {
        Refused(items, choice, slots, promotions, risks);
        GreedyDominates(rest, choice, slots, promotions, risks);
      } else {
        assert forall y | y in items :: y == x || y in rest;
        var less := Shrink(items, choice, slots, promotions, risks);
        var p, r := promotions + One(x.raw.kind == Promotion), risks + One(x.raw.kind == Risk);
        GreedyDominates(rest, less, slots - 1, p, r);
        SumOfGreedy(items, slots, promotions, risks);
      }
    }
  }

  /** The inverse of `Shrink`: a choice from the rest grows by the head. */
  lemma Prepend(items: seq<Insight>, rest: seq<Insight>, slots: nat, promotions: nat, risks: nat)
    requires items != [] && slots > 0 && Admits(items[0].raw.kind, promotions, risks)
    requires Admissible(items[1..], rest, slots - 1, promotions + One(items[0].raw.kind == Promotion),
                        risks + One(items[0].raw.kind == Risk))
    ensures Admissible(items, [items[0]] + rest, slots, promotions, risks)
  {
    assert items == [items[0]] + items[1..];
    assert ([items[0]] + rest)[1..] == rest;
  }

  /** The greedy choice is itself admissible. */
  lemma {:induction false} GreedyAdmissible(items: seq<Insight>, slots: nat, promotions: nat, risks: nat)
    ensures Admissible(items, Greedy(items, slots, promotions, risks), slots, promotions, risks)
    decreases |items|
  {
    if items != [] && slots > 0 {
      var x := items[0];
      assert items == [x] + items[1..];
      if !Admits(x.raw.kind, promotions, risks) {
        GreedyAdmissible(items[1..], slots, promotions, risks);
      } else {
        var p, r := promotions + One(x.raw.kind == Promotion), risks + One(x.raw.kind == Risk);
        GreedyAdmissible(items[1..], slots - 1, p, r);
        Prepend(items, Greedy(items[1..], slots - 1, p, r), slots, promotions, risks);
      }
    }
  }

  lemma ConsDescending(x: Insight, chosen: seq<Insight>)
    requires Descending(chosen) && forall y | y in chosen :: y.score <= x.score
    ensures Descending([x] + chosen)
  {
    var all := [x] + chosen;
    forall i, j | 0 <= i < j < |all| ensures all[i].score >= all[j].score {
      assert all[j] == chosen[j - 1];
      if i > 0 { assert all[i] == chosen[i - 1]; }
    }
  }

  lemma ConsDistinctKeys(x: Insight, chosen: seq<Insight>)
    requires DistinctKeys(chosen) && forall y | y in chosen :: KeyOf(y) != KeyOf(x)
    ensures DistinctKeys([x] + chosen)
  {
    var all := [x] + chosen;
    forall i, j | 0 <= i < j < |all| ensures KeyOf(all[i]) != KeyOf(all[j]) {
      assert all[j] == chosen[j - 1];
      if i > 0 { assert all[i] == chosen[i - 1]; }
    }
  }

  /** The greedy choice leaves insights out and changes nothing else. */
  lemma {:induction false} GreedyKeepsOrder(items: seq<Insight>, slots: nat, promotions: nat, risks: nat)
    ensures forall x | x in Greedy(items, slots, promotions, risks) :: x in items
    ensures Descending(items) ==> Descending(Greedy(items, slots, promotions, risks))
    ensures DistinctKeys(items) ==> DistinctKeys(Greedy(items, slots, promotions, risks))
    decreases |items|
  {
    if items != [] && slots > 0 {
      var x, rest := items[0], items[1..];
      HeadFirst(items);
      if !Admits(x.raw.kind, promotions, risks) {
        GreedyKeepsOrder(rest, slots, promotions, risks);
      } else {
        var p, r := promotions + One(x.raw.kind == Promotion), risks + One(x.raw.kind == Risk);
        GreedyKeepsOrder(rest, slots - 1, p, r);
        var chosen := Greedy(rest, slots - 1, p, r);
        if Descending(items) { ConsDescending(x, chosen); }
        if DistinctKeys(items) { ConsDistinctKeys(x, chosen); }
      }
    }
  }

  /** The insights whose place is marked. */
  function Pick(items: seq<Insight>, marks: seq<bool>): seq<Insight>
    requires |marks| == |items|
  {
    if items == [] then [] else (if marks[0] then [items[0]] else []) + Pick(items[1..], marks[1..])
  }

  /** After `before` was taken there is room for `x`: a slot, and no other promotion or risk if it is one. */
  predicate HasRoom(x: Insight, before: seq<Insight>, slots: nat, promotions: nat, risks: nat) {
    && |before| < slots
    && (x.raw.kind == Promotion ==> promotions == 0 && CountOf(Promotion, before) == 0)
    && (x.raw.kind == Risk ==> risks == 0 && CountOf(Risk, before) == 0)
  }

  ghost predicate MarkedAt(items: seq<Insight>, marks: seq<bool>, q: nat, slots: nat, promotions: nat, risks: nat)
    requires |marks| == |items| && q < |items|
  {
    marks[q] <==> HasRoom(items[q], Pick(items[..q], marks[..q]), slots, promotions, risks)
  }

  /** The marked places are those for which there was room when they were reached. */
  ghost predicate MarksWhatFits(items: seq<Insight>, marks: seq<bool>, slots: nat, promotions: nat, risks: nat) {
    |marks| == |items| && forall q | 0 <= q < |items| :: MarkedAt(items, marks, q, slots, promotions, risks)
  }

  /** What is taken before a later place begins with the head, if that is taken. */
  lemma PickBefore(items: seq<Insight>, marks: seq<bool>, q: nat)
    requires |marks| == |items| && 0 < q < |items|
    ensures Pick(items[..q], marks[..q])
         == (if marks[0] then [items[0]] else []) + Pick(items[1..][..q - 1], marks[1..][..q - 1])
  {
    assert items[..q][1..] == items[1..][..q - 1] && marks[..q][1..] == marks[1..][..q - 1];
  }

  lemma RoomAfterHead(x: Insight, y: Insight, before: seq<Insight>, slots: nat, promotions: nat, risks: nat)
    requires slots > 0
    ensures HasRoom(y, [x] + before, slots, promotions, risks)
       <==> HasRoom(y, before, slots - 1, promotions + One(x.raw.kind == Promotion), risks + One(x.raw.kind == Risk))
  {
    assert ([x] + before)[1..] == before;
  }

  /** The greedy choice goes through the list once and takes whatever there is room for. */
  lemma {:induction false} GreedyTakesWhatFits(items: seq<Insight>, slots: nat, promotions: nat, risks: nat)
    returns (marks: seq<bool>)
    ensures MarksWhatFits(items, marks, slots, promotions, risks)
    ensures Greedy(items, slots, promotions, risks) == Pick(items, marks)
    decreases |items|
  {
    if items == [] {
      marks := [];
    } else {
      var x, rest := items[0], items[1..];
      var taken := slots > 0 && Admits(x.raw.kind, promotions, risks);
      var p, r := promotions + One(x.raw.kind == Promotion), risks + One(x.raw.kind == Risk);
      var later: seq<bool>;
      if taken { later := GreedyTakesWhatFits(rest, slots - 1, p, r); }
      else { later := GreedyTakesWhatFits(rest, slots, promotions, risks); }
      marks := [taken] + later;
      assert marks[1..] == later;
      forall q | 0 <= q < |items| ensures MarkedAt(items, marks, q, slots, promotions, risks) {
        if q > 0 {
          var before := Pick(rest[..q - 1], later[..q - 1]);
          PickBefore(items, marks, q);
          if taken {
            assert MarkedAt(rest, later, q - 1, slots - 1, p, r);
            RoomAfterHead(x, items[q], before, slots, promotions, risks);
          } else {
            assert MarkedAt(rest, later, q - 1, slots, promotions, risks);
            assert [] + before == before;
          }
        }
      }
    }
  }

  /** The best total that a choice of at most `limit` with one promotion and one risk can reach. */
  ghost predicate Optimal(items: seq<Insight>, result: seq<Insight>, limit: nat) {
    && Admissible(items, result, limit, 0, 0)
    && forall choice :: Admissible(items, choice, limit, 0, 0) ==> Sum(choice) <= Sum(result)
  }

  lemma SelectionOptimal(items: seq<Insight>, limit: nat)
    ensures Optimal(items, Greedy(SortDescending(items), limit, 0, 0), limit)
  {
    var sorted := SortDescending(items);
    SortSorts(items);
    GreedyAdmissible(sorted, limit, 0, 0);
    forall choice | Admissible(items, choice, limit, 0, 0) ensures Sum(choice) <= Sum(Greedy(sorted, limit, 0, 0)) {
      GreedyDominates(sorted, choice, limit, 0, 0);
    }
  }

  // ---- The whole call ----

  method FilterAllowed(items: seq<Insight>, viewer: Viewer) returns (allowed: seq<Insight>)
    ensures forall x :: x in allowed <==> x in items && AudienceAllowed(x.raw.audience, viewer)
    ensures multiset(allowed) <= multiset(items)
    ensures DistinctKeys(items) ==> DistinctKeys(allowed)
  {
    allowed := [];
    for i := 0 to |items|
      invariant forall x :: x in allowed <==> x in items[..i] && AudienceAllowed(x.raw.audience, viewer)
      invariant multiset(allowed) <= multiset(items[..i])
      invariant DistinctKeys(items) ==> DistinctKeys(allowed)
    {
      assert items[..i + 1] == items[..i] + [items[i]];
      if AudienceAllowed(items[i].raw.audience, viewer) { allowed := allowed + [items[i]]; }
    }
    assert items[..|items|] == items;
  }

  /** The insights that compete for a viewer: the kept one of each key that the viewer may see. */
  ghost predicate Candidates(scored: seq<Insight>, viewer: Viewer, candidates: seq<Insight>) {
    && (forall x | x in candidates :: AudienceAllowed(x.raw.audience, viewer)
          && exists p :: 0 <= p < |scored| && x == scored[p] && Best(scored, p, |scored|))
    && (forall y | y in scored && AudienceAllowed(y.raw.audience, viewer) ::
          HasKey(candidates, KeyOf(y)))
    && DistinctKeys(candidates)
  }

  function ScoreAll(raw: seq<Raw>): (scored: seq<Insight>)
    ensures |scored| == |raw| && forall i | 0 <= i < |raw| :: scored[i] == Score(raw[i])
  {
    seq(|raw|, i requires 0 <= i < |raw| => Score(raw[i]))
  }

  /** Something competes for a viewer exactly when some insight is meant for that viewer. */
  lemma CandidatesExist(raw: seq<Raw>, viewer: Viewer, candidates: seq<Insight>)
    requires Candidates(ScoreAll(raw), viewer, candidates)
    ensures candidates == [] <==> forall x | x in raw :: !AudienceAllowed(x.audience, viewer)
  {
    var scored := ScoreAll(raw);
    if candidates != [] {
      assert candidates[0] in candidates;
      var p :| 0 <= p < |scored| && candidates[0] == scored[p];
      assert raw[p] in raw;
    } else {
      forall x | x in raw ensures !AudienceAllowed(x.audience, viewer) {
        var i :| 0 <= i < |raw| && raw[i] == x;
        assert scored[i] in scored;
      }
    }
  }

  /** `None` stands for the fixed fallback insight shown when nothing is left. */
  method GetInsights(raw: seq<Raw>, viewer: Viewer)
    returns (shown: Option<seq<Insight>>, ghost candidates: seq<Insight>)
    ensures Candidates(ScoreAll(raw), viewer, candidates)
    ensures shown.None? <==> forall x | x in raw :: !AudienceAllowed(x.audience, viewer)
    ensures shown.Some? ==> Optimal(candidates, shown.value, 4)
    ensures shown.Some? ==> exists marks ::
      MarksWhatFits(SortDescending(candidates), marks, 4, 0, 0)
        && shown.value == Pick(SortDescending(candidates), marks)
    ensures shown.Some? ==> Descending(shown.value) && DistinctKeys(shown.value)
  {
    var allowed := Compete(ScoreAll(raw), viewer);
    candidates := allowed;
    CandidatesExist(raw, viewer, candidates);
    var limit := MAX_INSIGHTS;
    var ranked := LimitByPriorityAndType(allowed, limit);
    SelectionOptimal(allowed, limit);
    SomethingChosen(allowed, limit);
    SortSorts(allowed);
    SortKeepsDistinctKeys(allowed);
    GreedyKeepsOrder(SortDescending(allowed), limit, 0, 0);
    ghost var marks := GreedyTakesWhatFits(SortDescending(allowed), limit, 0, 0);
    shown := if ranked == [] then None else Some(ranked);
  }

  method Compete(scored: seq<Insight>, viewer: Viewer) returns (allowed: seq<Insight>)
    ensures Candidates(scored, viewer, allowed)
  {
    var kept := Dedupe(scored);
    allowed := FilterAllowed(kept, viewer);
    forall y | y in scored && AudienceAllowed(y.raw.audience, viewer) ensures HasKey(allowed, KeyOf(y)) {
      var j :| 0 <= j < |kept| && KeyOf(kept[j]) == KeyOf(y);
      assert kept[j] in allowed;
    }
  }

  lemma SomethingChosen(items: seq<Insight>, limit: nat)
    requires limit > 0
    ensures Greedy(SortDescending(items), limit, 0, 0) == [] <==> items == []
  {
    SortKeepsMembers(items);
  }
}
