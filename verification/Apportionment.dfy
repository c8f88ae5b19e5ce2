/**
 * Largest-remainder apportionment of a number of seeded requests among weighted categories, and why no
 * other whole-number allocation lies closer to the exact quotas.
 */
module Apportionment {
  import opened Common

  /** The category weights in percent. */
  const WEIGHTS: seq<nat> := [30, 18, 12, 7, 10, 9, 8, 6]

  function Sum(s: seq<int>): int {
    if s == [] then 0 else Sum(s[..|s| - 1]) + s[|s| - 1]
  }

  // ---- Quotas `total * weight / base`, kept as a whole part and a remainder over `base` ----

  function Floors(weights: seq<nat>, base: int, total: nat): (r: seq<int>)
    requires base > 0
    ensures |r| == |weights|
  {
    if weights == [] then []
    else var n := |weights| - 1; Floors(weights[..n], base, total) + [total * weights[n] / base]
  }

  function Fractions(weights: seq<nat>, base: int, total: nat): (r: seq<int>)
    requires base > 0
    ensures |r| == |weights|
  {
    if weights == [] then []
    else var n := |weights| - 1; Fractions(weights[..n], base, total) + [total * weights[n] % base]
  }

  lemma {:induction false} QuotaAt(weights: seq<nat>, base: int, total: nat, i: nat)
    requires base > 0 && i < |weights|
    ensures Floors(weights, base, total)[i] == total * weights[i] / base >= 0
    ensures 0 <= Fractions(weights, base, total)[i] < base
    ensures base * Floors(weights, base, total)[i] + Fractions(weights, base, total)[i] == total * weights[i]
  {
    if i < |weights| - 1 {
      QuotaAt(weights[..|weights| - 1], base, total, i);
    } else {
      QuotaSplit(total, weights[i], base);
    }
  }

  lemma {:induction false} FractionAt(weights: seq<nat>, base: int, total: nat, i: nat)
    requires base > 0 && i < |weights|
    ensures Fractions(weights, base, total)[i] == total * weights[i] % base
  {
    if i < |weights| - 1 { FractionAt(weights[..|weights| - 1], base, total, i); }
  }

  lemma QuotaSplit(total: nat, weight: nat, base: int)
    requires base > 0
    ensures total * weight / base >= 0 && 0 <= total * weight % base < base
    ensures base * (total * weight / base) + total * weight % base == total * weight
  {
    assert total * weight >= 0;
  }

  /** Larger fraction first, equal fractions by index. */
  predicate Before(fractions: seq<int>, i: nat, j: nat)
    requires i < |fractions| && j < |fractions|
  {
    fractions[i] > fractions[j] || (fractions[i] == fractions[j] && i < j)
  }

  ghost predicate Within(ranked: seq<nat>, n: nat) {
    forall a | 0 <= a < |ranked| :: ranked[a] < n
  }

  function InsertRanked(fractions: seq<int>, ranked: seq<nat>, x: nat): (r: seq<nat>)
    requires x < |fractions| && Within(ranked, |fractions|)
    ensures |r| == |ranked| + 1 && Within(r, |fractions|) && forall k :: k in r <==> k in ranked || k == x
  {
    if ranked == [] || Before(fractions, x, ranked[0]) then [x] + ranked
    else [ranked[0]] + InsertRanked(fractions, ranked[1..], x)
  }

  /** The first `n` indices in rank order. */
  function Ranked(fractions: seq<int>, n: nat): (r: seq<nat>)
    requires n <= |fractions|
    ensures |r| == n && Within(r, |fractions|) && forall k: nat :: k in r <==> k < n
  {
    if n == 0 then [] else InsertRanked(fractions, Ranked(fractions, n - 1), n - 1)
  }

  ghost predicate InRankOrder(fractions: seq<int>, ranked: seq<nat>)
    requires Within(ranked, |fractions|)
  {
    forall a, b | 0 <= a < b < |ranked| :: Before(fractions, ranked[a], ranked[b])
  }

  lemma HeadBefore(fractions: seq<int>, ranked: seq<nat>, x: nat)
    requires ranked != [] && x < |fractions| && Within(ranked, |fractions|) && InRankOrder(fractions, ranked)
    requires x != ranked[0] && !Before(fractions, x, ranked[0])
    ensures forall k: nat :: k in ranked[1..] || k == x ==> k < |fractions| && Before(fractions, ranked[0], k)
  {
    forall k: nat | k in ranked[1..] ensures k < |fractions| && Before(fractions, ranked[0], k) {
      var b :| 1 <= b < |ranked| && ranked[b] == k;
    }
  }

  lemma {:induction false} InsertKeepsOrder(fractions: seq<int>, ranked: seq<nat>, x: nat)
    requires x < |fractions| && x !in ranked && Within(ranked, |fractions|) && InRankOrder(fractions, ranked)
    ensures InRankOrder(fractions, InsertRanked(fractions, ranked, x))
  {
    if ranked != [] && !Before(fractions, x, ranked[0]) {
      InsertKeepsOrder(fractions, ranked[1..], x);
      var rest := InsertRanked(fractions, ranked[1..], x);
      HeadBefore(fractions, ranked, x);
      forall b | 0 <= b < |rest| ensures Before(fractions, ranked[0], rest[b]) {
        assert rest[b] in rest;
      }
    }
  }

  lemma {:induction false} RankedInOrder(fractions: seq<int>, n: nat)
    requires n <= |fractions|
    ensures InRankOrder(fractions, Ranked(fractions, n))
  {
    if n > 0 {
      RankedInOrder(fractions, n - 1);
      InsertKeepsOrder(fractions, Ranked(fractions, n - 1), n - 1);
    }
  }

  // ---- The allocation ----

  /** One more for each of the first `n` ranked indices, going round again past the end. */
  function Bumped(counts: seq<int>, ranked: seq<nat>, n: nat): (r: seq<int>)
    requires |ranked| == |counts| > 0 && Within(ranked, |counts|)
    ensures |r| == |counts|
  {
    if n == 0 then counts
    else
      var before, at := Bumped(counts, ranked, n - 1), ranked[(n - 1) % |ranked|];
      before[at := before[at] + 1]
  }

  function Remainder(weights: seq<nat>, base: int, total: nat): nat
    requires base > 0
  {
    Max(0, total - Sum(Floors(weights, base, total)))
  }

  function Counts(weights: seq<nat>, base: int, total: nat): (r: seq<int>)
    requires base > 0 && weights != []
    ensures |r| == |weights|
  {
    Bumped(Floors(weights, base, total), Ranked(Fractions(weights, base, total), |weights|),
           Remainder(weights, base, total))
  }

  function Repeat(x: nat, n: nat): (r: seq<nat>)
    ensures |r| == n && forall k | 0 <= k < n :: r[k] == x
  {
    seq(n, i => x)
  }

  /** Each index repeated as often as it counts. */
  function Expand(counts: seq<int>): (plan: seq<nat>)
    requires forall i | 0 <= i < |counts| :: counts[i] >= 0
    ensures |plan| == Sum(counts)
  {
    if counts == [] then [] else Expand(counts[..|counts| - 1]) + Repeat(|counts| - 1, counts[|counts| - 1])
  }

  lemma {:induction false} RepeatOccurs(x: nat, n: nat)
    ensures forall y :: multiset(Repeat(x, n))[y] == if y == x then n else 0
  {
    if n > 0 {
      RepeatOccurs(x, n - 1);
      assert Repeat(x, n) == Repeat(x, n - 1) + [x];
    }
  }

  lemma {:induction false} ExpandOccurs(counts: seq<int>)
    requires forall i | 0 <= i < |counts| :: counts[i] >= 0
    ensures forall i: nat :: multiset(Expand(counts))[i] == if i < |counts| then counts[i] else 0
  {
    if counts != [] {
      ExpandOccurs(counts[..|counts| - 1]);
      RepeatOccurs(|counts| - 1, counts[|counts| - 1]);
    }
  }

  // ---- Totals ----

  lemma {:induction false} SumUpdate(s: seq<int>, k: nat, x: int)
    requires k < |s|
    ensures Sum(s[k := x]) == Sum(s) - s[k] + x
  {
    var n := |s| - 1;
    if k == n {
      assert s[k := x][..n] == s[..n];
    } else {
      assert s[k := x][..n] == s[..n][k := x];
      SumUpdate(s[..n], k, x);
    }
  }

  lemma {:induction false} SumBumped(counts: seq<int>, ranked: seq<nat>, n: nat)
    requires |ranked| == |counts| > 0 && Within(ranked, |counts|)
    ensures Sum(Bumped(counts, ranked, n)) == Sum(counts) + n
  {
    if n > 0 {
      SumBumped(counts, ranked, n - 1);
      var before, at := Bumped(counts, ranked, n - 1), ranked[(n - 1) % |ranked|];
      SumUpdate(before, at, before[at] + 1);
    }
  }

  lemma Distribute(a: int, b: int, c: int)
    ensures a * (b + c) == a * b + a * c
  {
  }

  /** Whole parts and fractions together are the exact quotas. */
  lemma {:induction false} SumQuotas(weights: seq<nat>, base: int, total: nat)
    requires base > 0
    ensures base * Sum(Floors(weights, base, total)) + Sum(Fractions(weights, base, total)) == total * Sum(weights)
  {
    if weights != [] {
      var n := |weights| - 1;
      SumQuotas(weights[..n], base, total);
      QuotaSplit(total, weights[n], base);
      Distribute(base, Sum(Floors(weights[..n], base, total)), total * weights[n] / base);
      Distribute(total, Sum(weights[..n]), weights[n]);
    }
  }

  lemma {:induction false} SumBounds(s: seq<int>, bound: int)
    requires forall i | 0 <= i < |s| :: 0 <= s[i] <= bound
    ensures 0 <= Sum(s) <= |s| * bound
  {
    if s != [] { SumBounds(s[..|s| - 1], bound); }
  }

  /** The remainder is what the whole parts leave, and smaller than the number of categories. */
  lemma RemainderSmall(weights: seq<nat>, base: int, total: nat)
    requires base > 0 && weights != [] && Sum(weights) == base
    ensures Remainder(weights, base, total) == total - Sum(Floors(weights, base, total)) < |weights|
  {
    var fractions, floors := Fractions(weights, base, total), Sum(Floors(weights, base, total));
    SumQuotas(weights, base, total);
    forall i | 0 <= i < |fractions| ensures 0 <= fractions[i] <= base - 1 {
      QuotaAt(weights, base, total, i);
    }
    SumBounds(fractions, base - 1);
    SmallQuotient(base, total, floors, Sum(fractions), |weights|);
  }

  lemma SmallQuotient(base: int, total: nat, floors: int, left: int, n: nat)
    requires base > 0 && n > 0 && base * floors + left == total * base && 0 <= left <= n * (base - 1)
    ensures 0 <= total - floors < n
  {
    var d := total - floors;
    Distribute(base, floors, d);
    assert base * d == left;
    if d >= n { MulMono(base, n, d); } else if d < 0 { MulMono(base, d, -1); }
  }

  lemma MulMono(a: int, b: int, c: int)
    requires a >= 0 && b <= c
    ensures a * b <= a * c
  {
    assert a * (c - b) >= 0;
  }

  // ---- Each category's share ----

  lemma {:induction false} BumpedAt(counts: seq<int>, fractions: seq<int>, ranked: seq<nat>, n: nat, i: nat)
    requires |ranked| == |counts| == |fractions| > 0 && Within(ranked, |counts|) && InRankOrder(fractions, ranked)
    requires n <= |ranked| && i < |counts|
    ensures Bumped(counts, ranked, n)[i] == counts[i] + if i in ranked[..n] then 1 else 0
  {
    if n > 0 {
      BumpedAt(counts, fractions, ranked, n - 1, i);
      SmallMod(n - 1, |ranked|);
      assert ranked[..n] == ranked[..n - 1] + [ranked[n - 1]];
      assert ranked[n - 1] !in ranked[..n - 1] by {
        assert forall a | 0 <= a < n - 1 :: Before(fractions, ranked[a], ranked[n - 1]);
      }
    }
  }

  lemma SmallMod(a: nat, b: nat)
    requires a < b
    ensures a % b == a
  {
  }

  /** The categories that get one more than their whole part. */
  ghost function Favoured(weights: seq<nat>, base: int, total: nat): seq<nat>
    requires base > 0
  {
    var ranked := Ranked(Fractions(weights, base, total), |weights|);
    ranked[..Min(Remainder(weights, base, total), |ranked|)]
  }

  /** Every category gets its whole part, or one more if favoured, and nothing is left over. */
  lemma Shares(weights: seq<nat>, base: int, total: nat)
    requires base > 0 && weights != [] && Sum(weights) == base
    ensures Sum(Counts(weights, base, total)) == total
    ensures forall i | 0 <= i < |weights| :: Counts(weights, base, total)[i]
                       == Floors(weights, base, total)[i] + if i in Favoured(weights, base, total) then 1 else 0
  {
    var floors, fractions := Floors(weights, base, total), Fractions(weights, base, total);
    var ranked, n := Ranked(fractions, |weights|), Remainder(weights, base, total);
    RemainderSmall(weights, base, total);
    RankedInOrder(fractions, |weights|);
    SumBumped(floors, ranked, n);
    forall i | 0 <= i < |weights|
      ensures Counts(weights, base, total)[i] == floors[i] + if i in ranked[..n] then 1 else 0
    {
      BumpedAt(floors, fractions, ranked, n, i);
    }
  }

  /** One category's share: the whole part of its quota, or one more if it is favoured. */
  lemma ShareExact(weights: seq<nat>, base: int, total: nat, i: nat)
    requires base > 0 && weights != [] && Sum(weights) == base && i < |weights|
    ensures Counts(weights, base, total)[i]
         == total * weights[i] / base + if i in Favoured(weights, base, total) then 1 else 0
  {
    Shares(weights, base, total);
    QuotaAt(weights, base, total, i);
  }

  /** The favoured are those with the largest fractions, the earlier category winning a tie. */
  lemma FavouredRankFirst(weights: seq<nat>, base: int, total: nat, i: nat, j: nat)
    requires base > 0 && i < |weights| && j < |weights|
    requires i in Favoured(weights, base, total) && j !in Favoured(weights, base, total)
    ensures var f, g := total * weights[i] % base, total * weights[j] % base; f > g || (f == g && i < j)
  {
    FractionAt(weights, base, total, i);
    FractionAt(weights, base, total, j);
    var fractions := Fractions(weights, base, total);
    var ranked, favoured := Ranked(fractions, |weights|), Favoured(weights, base, total);
    RankedInOrder(fractions, |weights|);
    var a :| 0 <= a < |favoured| && favoured[a] == i;
    assert j in ranked;
    var b :| 0 <= b < |ranked| && ranked[b] == j;
    assert ranked == favoured + ranked[|favoured|..];
  }

  // ---- Distance from the quotas ----

  function Abs(x: int): nat { if x < 0 then -x else x }

  /** How far each share lies from its exact quota, times the base. */
  function Distances(weights: seq<nat>, base: int, total: nat, counts: seq<int>): (r: seq<int>)
    requires |counts| == |weights|
    ensures |r| == |weights|
  {
    if weights == [] then []
    else
      var n := |weights| - 1;
      Distances(weights[..n], base, total, counts[..n]) + [Abs(base * counts[n] - total * weights[n])]
  }

  function Scaled(price: int, counts: seq<int>): (r: seq<int>)
    ensures |r| == |counts|
  {
    if counts == [] then []
    else var n := |counts| - 1; Scaled(price, counts[..n]) + [price * counts[n]]
  }

  lemma {:induction false} DistanceAt(weights: seq<nat>, base: int, total: nat, counts: seq<int>, i: nat)
    requires |counts| == |weights| && i < |weights|
    ensures Distances(weights, base, total, counts)[i] == Abs(base * counts[i] - total * weights[i])
  {
    var n := |weights| - 1;
    if i < n { DistanceAt(weights[..n], base, total, counts[..n], i); }
  }

  lemma {:induction false} ScaledAt(price: int, counts: seq<int>, i: nat)
    requires i < |counts|
    ensures Scaled(price, counts)[i] == price * counts[i]
  {
    var n := |counts| - 1;
    if i < n { ScaledAt(price, counts[..n], i); }
  }

  lemma {:induction false} SumScaled(price: int, counts: seq<int>)
    ensures Sum(Scaled(price, counts)) == price * Sum(counts)
  {
    if counts != [] {
      var n := |counts| - 1;
      SumScaled(price, counts[..n]);
      Distribute(price, Sum(counts[..n]), counts[n]);
    }
  }

  /** If each distance less its price is least, so is the sum of the distances less the total price. */
  lemma {:induction false} SumLeast(d: seq<int>, p: seq<int>, e: seq<int>, q: seq<int>)
    requires |d| == |p| == |e| == |q| && forall i | 0 <= i < |d| :: d[i] - p[i] <= e[i] - q[i]
    ensures Sum(d) - Sum(p) <= Sum(e) - Sum(q)
  {
    if d != [] {
      var n := |d| - 1;
      SumLeast(d[..n], p[..n], e[..n], q[..n]);
    }
  }

  /** A distance grows by `base` per unit away from the quota, at least as fast as the price. */
  lemma Slopes(base: int, price: int, d: int)
    requires base > 0 && -base <= price <= base
    ensures d >= 1 ==> base * d - base >= 0 && base * d - base >= price * d - price
    ensures d <= 0 ==> base * d <= 0 && base * d + price * d <= 0
  {
    if d >= 1 {
      MulMono(base, 1, d);
      MulMono(base - price, 1, d);
    } else {
      MulMono(base, d, 0);
      MulMono(base + price, d, 0);
    }
  }

  /** Whole part plus `c`, with `c` zero or one, is best at a price on the right side of `base - 2 * f`. */
  lemma StepAtPrice(base: int, f: int, price: int, c: int, d: int)
    requires base > 0 && 0 <= f < base && -base <= price <= base
    requires (c == 1 && price >= base - 2 * f) || (c == 0 && price <= base - 2 * f)
    ensures Abs(base * c - f) - price * c <= Abs(base * d - f) - price * d
  {
    Slopes(base, price, d);
    var bd, pd := base * d, price * d;
    assert base * c == (if c == 1 then base else 0) && price * c == (if c == 1 then price else 0);
    assert Abs(bd - f) == if d >= 1 then bd - f else f - bd;
  }

  lemma ShareAtPrice(base: int, quota: int, q: int, f: int, price: int, count: int, x: int)
    requires base > 0 && 0 <= f < base && -base <= price <= base && quota == base * q + f
    requires (count == q + 1 && price >= base - 2 * f) || (count == q && price <= base - 2 * f)
    ensures Abs(base * count - quota) - price * count <= Abs(base * x - quota) - price * x
  {
    var c, d := count - q, x - q;
    StepAtPrice(base, f, price, c, d);
    Distribute(base, q, c);
    Distribute(base, q, d);
    Distribute(price, q, c);
    Distribute(price, q, d);
  }

  /** `t` lies between the fractions of the favoured and those of the others. */
  ghost predicate Separates(weights: seq<nat>, base: int, total: nat, t: int)
    requires base > 0
  {
    && 0 <= t <= base
    && forall i | 0 <= i < |weights| ::
      (if i in Favoured(weights, base, total) then Fractions(weights, base, total)[i] >= t
       else Fractions(weights, base, total)[i] <= t)
  }

  lemma Threshold(weights: seq<nat>, base: int, total: nat) returns (t: int)
    requires base > 0 && weights != [] && Sum(weights) == base
    ensures Separates(weights, base, total, t)
  {
    var fractions, favoured := Fractions(weights, base, total), Favoured(weights, base, total);
    RankedInOrder(fractions, |weights|);
    t := if favoured == [] then base else fractions[favoured[|favoured| - 1]];
    forall i | 0 <= i < |weights| ensures 0 <= fractions[i] < base {
      QuotaAt(weights, base, total, i);
    }
    forall i | 0 <= i < |weights| ensures if i in favoured then fractions[i] >= t else fractions[i] <= t {
      if i in favoured {
        var a :| 0 <= a < |favoured| && favoured[a] == i;
        assert a < |favoured| - 1 ==> Before(fractions, favoured[a], favoured[|favoured| - 1]);
      } else if favoured != [] {
        FractionAt(weights, base, total, favoured[|favoured| - 1]);
        FractionAt(weights, base, total, i);
        FavouredRankFirst(weights, base, total, favoured[|favoured| - 1], i);
      }
    }
  }

  /** No share is better at this price than the one given. */
  ghost predicate BestAtPrice(weights: seq<nat>, base: int, total: nat, price: int, other: seq<int>, i: nat)
    requires base > 0 && |other| == |weights| && i < |weights|
  {
    var counts := Counts(weights, base, total);
    Distances(weights, base, total, counts)[i] - Scaled(price, counts)[i]
    <= Distances(weights, base, total, other)[i] - Scaled(price, other)[i]
  }

  lemma PricedShare(weights: seq<nat>, base: int, total: nat, t: int, price: int, other: seq<int>, i: nat)
    requires base > 0 && weights != [] && Sum(weights) == base && |other| == |weights| && i < |weights|
    requires Separates(weights, base, total, t) && price == base - 2 * t
    ensures BestAtPrice(weights, base, total, price, other, i)
  {
    var counts := Counts(weights, base, total);
    Shares(weights, base, total);
    QuotaAt(weights, base, total, i);
    DistanceAt(weights, base, total, counts, i);
    DistanceAt(weights, base, total, other, i);
    ScaledAt(price, counts, i);
    ScaledAt(price, other, i);
    ShareAtPrice(base, total * weights[i], Floors(weights, base, total)[i], Fractions(weights, base, total)[i], price,
                 counts[i], other[i]);
  }

  lemma LeastAtPrice(weights: seq<nat>, base: int, total: nat, price: int, other: seq<int>)
    requires base > 0 && weights != [] && |other| == |weights|
    requires forall i | 0 <= i < |weights| :: BestAtPrice(weights, base, total, price, other, i)
    ensures var counts := Counts(weights, base, total);
      Sum(Distances(weights, base, total, counts)) - Sum(Scaled(price, counts))
      <= Sum(Distances(weights, base, total, other)) - Sum(Scaled(price, other))
  {
    var counts := Counts(weights, base, total);
    var d, e := Distances(weights, base, total, counts), Distances(weights, base, total, other);
    var p, q := Scaled(price, counts), Scaled(price, other);
    assert forall i | 0 <= i < |d| :: BestAtPrice(weights, base, total, price, other, i) && d[i] - p[i] <= e[i] - q[i];
    SumLeast(d, p, e, q);
  }

  lemma SamePrice(price: int, a: seq<int>, b: seq<int>)
    requires Sum(a) == Sum(b)
    ensures Sum(Scaled(price, a)) == Sum(Scaled(price, b))
  {
    SumScaled(price, a);
    SumScaled(price, b);
  }

  lemma CountsTotal(weights: seq<nat>, base: int, total: nat)
    requires base > 0 && weights != [] && Sum(weights) == base
    ensures Sum(Counts(weights, base, total)) == total
  {
    Shares(weights, base, total);
  }

  lemma SomePriceFits(weights: seq<nat>, base: int, total: nat, other: seq<int>) returns (price: int)
    requires base > 0 && weights != [] && Sum(weights) == base && |other| == |weights|
    ensures var counts := Counts(weights, base, total);
      Sum(Distances(weights, base, total, counts)) - Sum(Scaled(price, counts))
      <= Sum(Distances(weights, base, total, other)) - Sum(Scaled(price, other))
  {
    var t := Threshold(weights, base, total);
    price := base - 2 * t;
    AllBest(weights, base, total, t, price, other);
    LeastAtPrice(weights, base, total, price, other);
  }

  lemma AllBest(weights: seq<nat>, base: int, total: nat, t: int, price: int, other: seq<int>)
    requires base > 0 && weights != [] && Sum(weights) == base && |other| == |weights|
    requires Separates(weights, base, total, t) && price == base - 2 * t
    ensures forall i | 0 <= i < |weights| :: BestAtPrice(weights, base, total, price, other, i)
  {
    forall i | 0 <= i < |weights| ensures BestAtPrice(weights, base, total, price, other, i) {
      PricedShare(weights, base, total, t, price, other, i);
    }
  }

  /** No whole-number allocation of the same total, not even with negative shares, lies closer to the quotas. */
  lemma LeastDeviation(weights: seq<nat>, base: int, total: nat, other: seq<int>)
    requires base > 0 && weights != [] && Sum(weights) == base
    requires |other| == |weights| && Sum(other) == total
    ensures Sum(Distances(weights, base, total, Counts(weights, base, total)))
         <= Sum(Distances(weights, base, total, other))
  {
    var price := SomePriceFits(weights, base, total, other);
    CountsTotal(weights, base, total);
    SamePrice(price, Counts(weights, base, total), other);
  }

  // ---- The plan ----

  lemma {:induction false} ExpandSorted(counts: seq<int>)
    requires forall i | 0 <= i < |counts| :: counts[i] >= 0
    ensures forall a | 0 <= a < |Expand(counts)| :: Expand(counts)[a] < |counts|
    ensures forall a, b | 0 <= a < b < |Expand(counts)| :: Expand(counts)[a] <= Expand(counts)[b]
  {
    if counts != [] { ExpandSorted(counts[..|counts| - 1]); }
  }

  lemma PlanShape(counts: seq<int>)
    requires forall i | 0 <= i < |counts| :: counts[i] >= 0
    ensures forall i: nat :: multiset(Expand(counts))[i] == if i < |counts| then counts[i] else 0
    ensures forall a, b | 0 <= a < b < |Expand(counts)| :: Expand(counts)[a] <= Expand(counts)[b]
  {
    ExpandOccurs(counts);
    ExpandSorted(counts);
  }

  method Total(s: seq<int>) returns (t: int)
    ensures t == Sum(s)
  {
    t := 0;
    for i := 0 to |s|
      invariant t == Sum(s[..i])
    {
      assert s[..i + 1][..i] == s[..i];
      t := t + s[i];
    }
    assert s[..|s|] == s;
  }

  method HandOut(counts: array<int>, ranked: seq<nat>, remainder: nat)
    requires |ranked| == counts.Length > 0 && Within(ranked, |ranked|)
    modifies counts
    ensures counts[..] == Bumped(old(counts[..]), ranked, remainder)
  {
    ghost var before := counts[..];
    for cursor := 0 to remainder
      invariant counts[..] == Bumped(before, ranked, cursor)
    {
      var target := ranked[cursor % |ranked|];
      counts[target] := counts[target] + 1;
    }
  }

  /** Whole parts first, then one more for each ranked category while any remain. */
  method Allocate(floors: seq<int>, fractions: seq<int>, total: nat) returns (counts: array<int>)
    requires |floors| == |fractions| > 0
    ensures fresh(counts)
    ensures counts[..] == Bumped(floors, Ranked(fractions, |fractions|), Max(0, total - Sum(floors)))
  {
    var given := Total(floors);
    counts := new int[|floors|](i requires 0 <= i < |floors| => floors[i]);
    assert counts[..] == floors;
    HandOut(counts, Ranked(fractions, |fractions|), Max(0, total - given));
  }

  method Flatten(counts: array<int>) returns (plan: seq<nat>)
    requires forall i | 0 <= i < counts.Length :: counts[i] >= 0
    ensures plan == Expand(counts[..])
  {
    plan := [];
    ghost var all := counts[..];
    for index := 0 to counts.Length
      invariant plan == Expand(all[..index])
    {
      assert all[..index + 1][..index] == all[..index];
      plan := plan + Repeat(index, counts[index]);
    }
    assert all[..counts.Length] == all;
  }

  lemma CountsNonnegative(weights: seq<nat>, base: int, total: nat)
    requires base > 0 && weights != [] && Sum(weights) == base
    ensures forall i | 0 <= i < |weights| :: Counts(weights, base, total)[i] >= 0
  {
    Shares(weights, base, total);
    forall i | 0 <= i < |weights| ensures Counts(weights, base, total)[i] >= 0 {
      QuotaAt(weights, base, total, i);
    }
  }

  /** Lists each category as often as it counts; the padding for a short plan is never needed. */
  method BuildCategoryPlan(weights: seq<nat>, base: int, total: nat) returns (plan: seq<nat>)
    requires base > 0 && weights != [] && Sum(weights) == base
    ensures |plan| == total
    ensures forall i: nat :: multiset(plan)[i] == if i < |weights| then Counts(weights, base, total)[i] else 0
    ensures forall a, b | 0 <= a < b < total :: plan[a] <= plan[b]
  {
    var counts := Allocate(Floors(weights, base, total), Fractions(weights, base, total), total);
    ghost var shares := Counts(weights, base, total);
    assert counts[..] == shares;
    CountsNonnegative(weights, base, total);
    assert forall i | 0 <= i < counts.Length :: counts[i] == shares[i];
    plan := Flatten(counts);
    CountsTotal(weights, base, total);
    PlanShape(shares);
    assert plan + Repeat(0, 0) == plan == plan[..total];
    plan := plan + Repeat(0, Max(0, total - |plan|));
    plan := plan[..total];
  }

  /** The shipped weights are percentages of a whole, so all of the above holds for them. */
  lemma ShippedWeights()
    ensures Sum(WEIGHTS) == 100 && |WEIGHTS| == 8
  {
    var w := WEIGHTS;
    assert Sum(w[..1]) == 30 && Sum(w[..2]) == 48 && Sum(w[..3]) == 60 && Sum(w[..4]) == 67 by {
      SumPrefix(w, 0); SumPrefix(w, 1); SumPrefix(w, 2); SumPrefix(w, 3);
    }
    SumPrefix(w, 4);
    SumPrefix(w, 5);
    SumPrefix(w, 6);
    SumPrefix(w, 7);
    assert w[..8] == w;
  }

  /** As many requests as the weights add up to are shared out exactly as the weights say. */
  lemma WholeIsShared(weights: seq<nat>, base: int)
    requires base > 0 && weights != [] && Sum(weights) == base
    ensures Counts(weights, base, base) == weights
  {
    var floors, counts := Floors(weights, base, base), Counts(weights, base, base);
    forall i | 0 <= i < |weights| ensures floors[i] == weights[i] {
      WholeFloor(weights, base, i);
    }
    assert floors == weights;
    NobodyFavoured(weights, base);
    Shares(weights, base, base);
    assert counts == weights;
  }

  lemma WholeFloor(weights: seq<nat>, base: int, i: nat)
    requires base > 0 && i < |weights|
    ensures Floors(weights, base, base)[i] == weights[i]
  {
    QuotaAt(weights, base, base, i);
    WholeQuota(base, weights[i], Floors(weights, base, base)[i], Fractions(weights, base, base)[i]);
  }

  lemma NobodyFavoured(weights: seq<nat>, base: int)
    requires base > 0 && weights != [] && Sum(weights) == base && Floors(weights, base, base) == weights
    ensures Favoured(weights, base, base) == []
  {
    RemainderSmall(weights, base, base);
  }

  lemma WholeQuota(base: int, weight: nat, floor: int, fraction: int)
    requires 0 <= fraction < base && base * floor + fraction == base * weight
    ensures floor == weight
  {
    Distribute(base, floor, weight - floor);
    if floor < weight { MulMono(base, 1, weight - floor); }
    if floor > weight { MulMono(base, weight - floor, -1); }
  }

  /** Of a hundred requests the eight categories get these. */
  lemma ShippedHundred(weights: seq<nat>, base: int)
    requires weights == WEIGHTS && base == 100
    ensures Counts(weights, base, base) == [30, 18, 12, 7, 10, 9, 8, 6]
  {
    ShippedWeights();
    WholeIsShared(weights, base);
  }

  lemma SumPrefix(s: seq<int>, n: nat)
    requires n < |s|
    ensures Sum(s[..n + 1]) == Sum(s[..n]) + s[n]
  {
    assert s[..n + 1][..n] == s[..n];
  }
}
