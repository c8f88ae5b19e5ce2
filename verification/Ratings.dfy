/**
 * Reviews of completed bookings and the averages they feed, which are rounded to two decimals at every
 * step: how many ratings a profile counts, how far its average drifts and when it stops moving.
 */
module Ratings {
  import opened Common
  import B = Bookings

  datatype Role = ClientRole | ProviderRole

  datatype Profile = Profile(ratingCount: nat, ratingAvg: real)

  /** A review of a user in the given role. */
  datatype Review = Review(bookingId: B.Id, targetRole: Role, targetUserId: string, rating: real)

  datatype State = State(reviews: seq<Review>, clients: map<string, Profile>, providers: map<string, Profile>)

  const NO_RATINGS := Profile(0, 0.0)

  // ---- The running average ----

  function Cents(n: int): real { n as real / 100.0 }

  ghost predicate TwoDecimals(x: real) {
    exists n :: x == Cents(n)
  }

  /** `n` times `x`, as a sum. */
  ghost function Times(n: nat, x: real): real {
    if n == 0 then 0.0 else Times(n - 1, x) + x
  }

  lemma {:induction false} TimesIsProduct(n: nat, x: real)
    ensures Times(n, x) == n as real * x
  {
    if n > 0 {
      TimesIsProduct(n - 1, x);
      OneMore((n - 1) as real, x);
    }
  }

  lemma OneMore(m: real, x: real)
    ensures (m + 1.0) * x == m * x + x
  {
  }

  lemma {:induction false} TimesAdds(n: nat, x: real, y: real)
    ensures Times(n, x + y) == Times(n, x) + Times(n, y)
  {
    if n > 0 { TimesAdds(n - 1, x, y); }
  }

  lemma {:induction false} TimesOrdered(n: nat, x: real, y: real)
    requires n > 0
    ensures x < y <==> Times(n, x) < Times(n, y)
    ensures x <= y <==> Times(n, x) <= Times(n, y)
  {
    if n > 1 { TimesOrdered(n - 1, x, y); }
  }

  /** The constants below, added up. */
  lemma {:induction false} TimesConstants(n: nat)
    ensures Times(n, 0.005) == 0.005 * n as real && Times(n, -0.005) == -0.005 * n as real
    ensures Times(n, 0.01) == 0.01 * n as real && Times(n, 1.0) == n as real && Times(n, 5.0) == 5.0 * n as real
  {
    if n > 0 { TimesConstants(n - 1); }
  }

  lemma TimesQuotient(n: nat, sum: real)
    requires n > 0
    ensures Times(n, sum / n as real) == sum
  {
    TimesIsProduct(n, sum / n as real);
    DivideBack(sum, n as real);
  }

  lemma DivideBack(sum: real, n: real)
    requires n > 0.0
    ensures n * (sum / n) == sum
  {
  }

  /** `avg` has two decimals and is nearest to `sum / n`, the larger one when two are equally near. */
  ghost predicate Nearest(avg: real, sum: real, n: nat) {
    TwoDecimals(avg) && -0.005 * n as real < Times(n, avg) - sum <= 0.005 * n as real
  }

  /** The rating average as it is computed: rounded to two decimals, halves up. */
  function Round2(x: real): real { Cents((x * 100.0 + 0.5).Floor) }

  lemma RoundError(x: real)
    ensures TwoDecimals(Round2(x)) && -0.005 < Round2(x) - x <= 0.005
  {
  }

  /** Rounding the quotient finds the nearest average. */
  lemma RoundedIsNearest(sum: real, n: nat)
    requires n > 0
    ensures Nearest(Round2(sum / n as real), sum, n)
  {
    var q := sum / n as real;
    var error := Round2(q) - q;
    RoundError(q);
    TimesQuotient(n, sum);
    TimesAdds(n, q, error);
    TimesOrdered(n, -0.005, error);
    TimesOrdered(n, error, 0.005);
    TimesConstants(n);
  }

  /** Two-decimal numbers that differ are at least a hundredth apart. */
  lemma Apart(a: real, b: real, n: nat)
    requires n > 0 && TwoDecimals(a) && TwoDecimals(b) && a < b
    ensures Times(n, b) - Times(n, a) >= 0.01 * n as real
  {
    CentsApart(a, b);
    TimesAdds(n, a, b - a);
    assert a + (b - a) == b;
    TimesOrdered(n, 0.01, b - a);
    TimesConstants(n);
  }

  lemma CentsApart(a: real, b: real)
    requires TwoDecimals(a) && TwoDecimals(b) && a < b
    ensures b - a >= 0.01
  {
    var c :| a == Cents(c);
    var d :| b == Cents(d);
    assert c + 1 <= d;
  }

  lemma NearestUnique(a: real, b: real, sum: real, n: nat)
    requires n > 0 && Nearest(a, sum, n) && Nearest(b, sum, n)
    ensures a == b
  {
    if a < b {
      Apart(a, b, n);
    } else if b < a {
      Apart(b, a, n);
    }
  }

  /** What a profile's ratings add up to, as far as its average tells, with one more rating. */
  ghost function NewSum(p: Profile, rating: real): real { Times(p.ratingCount, p.ratingAvg) + rating }

  /** The profile after one more rating. */
  ghost function Rate(p: Profile, rating: real): (next: Profile)
    ensures next.ratingCount == p.ratingCount + 1
  {
    RoundedIsNearest(NewSum(p, rating), p.ratingCount + 1);
    var avg :| Nearest(avg, NewSum(p, rating), p.ratingCount + 1);
    Profile(p.ratingCount + 1, avg)
  }

  lemma RateIsNearest(p: Profile, rating: real)
    ensures Nearest(Rate(p, rating).ratingAvg, NewSum(p, rating), p.ratingCount + 1)
  {
    RoundedIsNearest(NewSum(p, rating), p.ratingCount + 1);
  }

  ghost function RateAll(p: Profile, ratings: seq<real>): (r: Profile)
    ensures r.ratingCount == p.ratingCount + |ratings|
  {
    if ratings == [] then p else Rate(RateAll(p, ratings[..|ratings| - 1]), ratings[|ratings| - 1])
  }

  function Total(ratings: seq<real>): real {
    if ratings == [] then 0.0 else Total(ratings[..|ratings| - 1]) + ratings[|ratings| - 1]
  }

  predicate InScale(rating: real) { 1.0 <= rating <= 5.0 }

  ghost predicate AllInScale(ratings: seq<real>) {
    forall i | 0 <= i < |ratings| :: InScale(ratings[i])
  }

  lemma RatedInScale(p: Profile, rating: real)
    requires p.ratingCount > 0 ==> InScale(p.ratingAvg)
    requires InScale(rating)
    ensures InScale(Rate(p, rating).ratingAvg)
  {
    var n := p.ratingCount;
    RateIsNearest(p, rating);
    if n > 0 {
      TimesOrdered(n, 1.0, p.ratingAvg);
      TimesOrdered(n, p.ratingAvg, 5.0);
    }
    TimesConstants(n);
    NearestInScale(Rate(p, rating).ratingAvg, NewSum(p, rating), n + 1);
  }

  lemma NearestInScale(avg: real, sum: real, n: nat)
    requires n > 0 && Nearest(avg, sum, n) && n as real <= sum <= 5.0 * n as real
    ensures InScale(avg)
  {
    WholeIsTwoDecimals(1);
    WholeIsTwoDecimals(5);
    TimesConstants(n);
    if avg < 1.0 {
      Apart(avg, 1.0, n);
    } else if avg > 5.0 {
      Apart(5.0, avg, n);
    }
  }

  lemma WholeIsTwoDecimals(k: int)
    ensures TwoDecimals(k as real)
  {
    assert k as real == Cents(100 * k);
  }

  /** The sum of the numbers up to `n`. */
  ghost function Triangle(n: nat): nat {
    if n == 0 then 0 else Triangle(n - 1) + n
  }

  lemma {:induction false} TriangleIsHalfProduct(n: nat)
    ensures 2 * Triangle(n) == n * (n + 1)
  {
    if n > 0 { TriangleIsHalfProduct(n - 1); }
  }

  /**
   * After `n` ratings the stored average is on the scale, and added up `n` times it differs from the sum
   * of the ratings by at most 0.005 times the sum of the numbers up to `n`.
   */
  lemma {:induction false} DriftBound(ratings: seq<real>)
    requires AllInScale(ratings)
    ensures ratings != [] ==> InScale(RateAll(NO_RATINGS, ratings).ratingAvg)
    ensures var n := |ratings|;
      var error := Times(n, RateAll(NO_RATINGS, ratings).ratingAvg) - Total(ratings);
      -0.005 * Triangle(n) as real <= error <= 0.005 * Triangle(n) as real
  {
    if ratings != [] {
      var init, rating := ratings[..|ratings| - 1], ratings[|ratings| - 1];
      DriftBound(init);
      RatedInScale(RateAll(NO_RATINGS, init), rating);
      RateIsNearest(RateAll(NO_RATINGS, init), rating);
    }
  }

  /**
   * After `n` ratings the stored average is on the scale, and `n` times it differs from the sum of the
   * ratings by at most 0.0025 n (n + 1).
   */
  lemma AverageDrift(ratings: seq<real>)
    requires AllInScale(ratings)
    ensures ratings != [] ==> InScale(RateAll(NO_RATINGS, ratings).ratingAvg)
    ensures Close(|ratings| as real, RateAll(NO_RATINGS, ratings).ratingAvg, Total(ratings))
  {
    DriftBound(ratings);
    InProducts(|ratings|, RateAll(NO_RATINGS, ratings).ratingAvg, Total(ratings));
  }

  ghost predicate Close(n: real, avg: real, total: real) {
    -0.0025 * (n * (n + 1.0)) <= n * avg - total <= 0.0025 * (n * (n + 1.0))
  }

  lemma InProducts(n: nat, avg: real, total: real)
    requires -0.005 * Triangle(n) as real <= Times(n, avg) - total <= 0.005 * Triangle(n) as real
    ensures Close(n as real, avg, total)
  {
    TimesIsProduct(n, avg);
    TriangleInReals(n, n as real * (n as real + 1.0));
  }

  lemma TriangleInReals(n: nat, product: real)
    requires product == n as real * (n as real + 1.0)
    ensures 2.0 * Triangle(n) as real == product
  {
    TriangleIsHalfProduct(n);
    CastProduct(n, n + 1);
  }

  lemma CastProduct(a: nat, b: nat)
    ensures (a * b) as real == a as real * b as real
  {
  }

  /** Hence the average is within 0.0025 (n + 1) of the true mean. */
  lemma MeanDrift(ratings: seq<real>)
    requires AllInScale(ratings) && ratings != []
    ensures var n := |ratings| as real;
      var drift := RateAll(NO_RATINGS, ratings).ratingAvg - Total(ratings) / n;
      -0.0025 * (n + 1.0) <= drift <= 0.0025 * (n + 1.0)
  {
    DriftBound(ratings);
    PerRating(RateAll(NO_RATINGS, ratings).ratingAvg, |ratings|, Total(ratings));
  }

  lemma PerRating(avg: real, n: nat, total: real)
    requires n > 0
    requires -0.005 * Triangle(n) as real <= Times(n, avg) - total <= 0.005 * Triangle(n) as real
    ensures -0.0025 * (n as real + 1.0) <= avg - total / n as real <= 0.0025 * (n as real + 1.0)
  {
    var mean, high := total / n as real, 0.0025 * (n as real + 1.0);
    var drift := avg - mean;
    TimesQuotient(n, total);
    TimesAdds(n, mean, drift);
    assert mean + drift == avg;
    HighTimes(n, high);
    TimesAdds(n, high, -high);
    TimesZero(n);
    assert high + -high == 0.0;
    TimesOrdered(n, -high, drift);
    TimesOrdered(n, drift, high);
  }

  lemma {:induction false} TimesZero(n: nat)
    ensures Times(n, 0.0) == 0.0
  {
    if n > 0 { TimesZero(n - 1); }
  }

  lemma HighTimes(n: nat, high: real)
    requires high == 0.0025 * (n as real + 1.0)
    ensures Times(n, high) == 0.005 * Triangle(n) as real
  {
    TimesIsProduct(n, high);
    TriangleInReals(n, n as real * (n as real + 1.0));
    QuarterPercent(n as real, n as real + 1.0);
  }

  lemma QuarterPercent(n: real, k: real)
    ensures n * (0.0025 * k) == 0.0025 * (n * k)
  {
  }

  // ---- When the average stops moving ----

  /**
   * A rating leaves the average unmoved exactly when it lies less than half a hundredth per rating counted
   * above it, or at most that much below.
   */
  lemma UnmovedIff(p: Profile, rating: real)
    requires TwoDecimals(p.ratingAvg)
    ensures var n := (p.ratingCount + 1) as real;
      Rate(p, rating).ratingAvg == p.ratingAvg <==> -0.005 * n <= rating - p.ratingAvg < 0.005 * n
  {
    RateIsNearest(p, rating);
    assert Times(p.ratingCount + 1, p.ratingAvg) == Times(p.ratingCount, p.ratingAvg) + p.ratingAvg;
    if Nearest(p.ratingAvg, NewSum(p, rating), p.ratingCount + 1) {
      NearestUnique(p.ratingAvg, Rate(p, rating).ratingAvg, NewSum(p, rating), p.ratingCount + 1);
    }
  }

  function Fives(n: nat): (r: seq<real>)
    ensures |r| == n && forall i | 0 <= i < n :: r[i] == 5.0
  {
    seq(n, i => 5.0)
  }

  /** Nothing but five-star ratings shows 5.00. */
  lemma {:induction false} FivesShowFive(n: nat)
    requires n > 0
    ensures RateAll(NO_RATINGS, Fives(n)).ratingAvg == 5.0
  {
    var p := RateAll(NO_RATINGS, Fives(n - 1));
    assert Fives(n)[..n - 1] == Fives(n - 1);
    if n > 1 { FivesShowFive(n - 1); }
    RateIsNearest(p, 5.0);
    WholeIsTwoDecimals(5);
    TimesConstants(n - 1);
    TimesConstants(n);
    NearestUnique(5.0, Rate(p, 5.0).ratingAvg, NewSum(p, 5.0), n);
  }

  /** From 799 five-star ratings on the average shows 5.00 whatever is given next. */
  lemma {:induction false} FiveStarsFrozen(n: nat, later: seq<real>)
    requires n >= 799 && AllInScale(later)
    ensures RateAll(NO_RATINGS, Fives(n) + later).ratingAvg == 5.0
  {
    var all := Fives(n) + later;
    if later == [] {
      assert all == Fives(n);
      FivesShowFive(n);
    } else {
      var init, rating := later[..|later| - 1], later[|later| - 1];
      assert all[..|all| - 1] == Fives(n) + init;
      FiveStarsFrozen(n, init);
      WholeIsTwoDecimals(5);
      UnmovedIff(RateAll(NO_RATINGS, Fives(n) + init), rating);
    }
  }

  /** And 799 is the least such number: with fewer a one-star rating shows. */
  lemma FiveStarsMoveBefore(n: nat)
    requires n > 0
    ensures RateAll(NO_RATINGS, Fives(n) + [1.0]).ratingAvg == 5.0 <==> n >= 799
  {
    var all := Fives(n) + [1.0];
    assert all[..n] == Fives(n);
    FivesShowFive(n);
    WholeIsTwoDecimals(5);
    UnmovedIff(RateAll(NO_RATINGS, Fives(n)), 1.0);
  }

  // ---- Reviewing ----

  /** A rating that is no finite number is `None`. */
  function Normalized(rating: Option<real>): Result<real> {
    if rating.None? || !InScale(rating.value) then Err(BadRequest) else Ok(rating.value)
  }

  predicate Reviewed(reviews: seq<Review>, bookingId: B.Id, role: Role) {
    exists i :: 0 <= i < |reviews| && reviews[i].bookingId == bookingId && reviews[i].targetRole == role
  }

  function ProfileOf(profiles: map<string, Profile>, user: string): Profile {
    if user in profiles then profiles[user] else NO_RATINGS
  }

  /** `author` reviews the other side of a booking: `role` is the side that is reviewed. */
  ghost function Create(s: State, bookings: map<B.Id, B.Booking>, author: string, role: Role, bookingId: B.Id,
                        rating: Option<real>): (State, Result<Review>)
  {
    if bookingId !in bookings then (s, Err(NotFound))
    else
      var b := bookings[bookingId];
      if author != (if role == ClientRole then b.providerUserId else b.clientId) then (s, Err(Forbidden))
      else if b.status != B.Completed || Reviewed(s.reviews, bookingId, role) || Normalized(rating).Err?
        then (s, Err(BadRequest))
      else
        var target := if role == ClientRole then b.clientId else b.providerUserId;
        var review := Review(bookingId, role, target, Normalized(rating).value);
        (Rated(s, role, target, review.rating).(reviews := s.reviews + [review]), Ok(review))
  }

  ghost function Rated(s: State, role: Role, user: string, rating: real): State {
    match role
    case ClientRole => s.(clients := s.clients[user := Rate(ProfileOf(s.clients, user), rating)])
    case ProviderRole => s.(providers := s.providers[user := Rate(ProfileOf(s.providers, user), rating)])
  }

  /** One request, with the bookings as they are when it is made. */
  datatype Step = Step(bookings: map<B.Id, B.Booking>, author: string, role: Role, bookingId: B.Id,
                       rating: Option<real>)

  ghost function Run(steps: seq<Step>): State {
    if steps == [] then State([], map[], map[])
    else
      var s := steps[|steps| - 1];
      Create(Run(steps[..|steps| - 1]), s.bookings, s.author, s.role, s.bookingId, s.rating).0
  }

  /** The ratings a user got in a role, oldest first. */
  function RatingsOf(reviews: seq<Review>, role: Role, user: string): seq<real> {
    if reviews == [] then []
    else
      var last := reviews[|reviews| - 1];
      RatingsOf(reviews[..|reviews| - 1], role, user)
      + if last.targetRole == role && last.targetUserId == user then [last.rating] else []
  }

  function StoredProfile(s: State, role: Role, user: string): Profile {
    ProfileOf(if role == ClientRole then s.clients else s.providers, user)
  }

  ghost predicate ProfilesMatch(s: State) {
    forall role, user :: StoredProfile(s, role, user) == RateAll(NO_RATINGS, RatingsOf(s.reviews, role, user))
  }

  ghost predicate OnePerBookingAndRole(reviews: seq<Review>) {
    forall i, j | 0 <= i < j < |reviews| ::
      !(reviews[i].bookingId == reviews[j].bookingId && reviews[i].targetRole == reviews[j].targetRole)
  }

  lemma RatingsSnoc(reviews: seq<Review>, r: Review, role: Role, user: string)
    ensures RatingsOf(reviews + [r], role, user)
         == RatingsOf(reviews, role, user) + if r.targetRole == role && r.targetUserId == user then [r.rating] else []
  {
    assert (reviews + [r])[..|reviews|] == reviews;
  }

  lemma RateAllSnoc(p: Profile, ratings: seq<real>, rating: real)
    ensures RateAll(p, ratings + [rating]) == Rate(RateAll(p, ratings), rating)
  {
    assert (ratings + [rating])[..|ratings|] == ratings;
  }

  /** One review more, in scale and the first of its kind, and only the profile it is about has changed. */
  ghost predicate Adds(s: State, after: State, r: Review) {
    && after.reviews == s.reviews + [r] && InScale(r.rating) && !Reviewed(s.reviews, r.bookingId, r.targetRole)
    && forall role, user :: StoredProfile(after, role, user)
         == if r.targetRole == role && r.targetUserId == user then Rate(StoredProfile(s, role, user), r.rating)
            else StoredProfile(s, role, user)
  }

  lemma CreateEffect(s: State, t: Step)
    ensures var (after, result) := Create(s, t.bookings, t.author, t.role, t.bookingId, t.rating);
      if result.Ok? then Adds(s, after, result.value) else after == s
  {
  }

  /** A booking's one side may review the other once it is completed, once for each side, from one to five stars. */
  predicate MayReview(s: State, b: B.Booking, author: string, role: Role, bookingId: B.Id, rating: Option<real>) {
    && (match role case ClientRole => author == b.providerUserId case ProviderRole => author == b.clientId)
    && b.status == B.Completed
    && (forall r | r in s.reviews && r.bookingId == bookingId :: r.targetRole != role)
    && rating.Some? && 1.0 <= rating.value && rating.value <= 5.0
  }

  /** Who is refused and why, and whom a review is about; the other role's profiles are not touched. */
  lemma CreateExact(s: State, bookings: map<B.Id, B.Booking>, author: string, role: Role, bookingId: B.Id,
                    rating: Option<real>)
    ensures var (after, result) := Create(s, bookings, author, role, bookingId, rating);
      if bookingId !in bookings then after == s && result == Err(NotFound)
      else
        var b := bookings[bookingId];
        if author != (if role == ClientRole then b.providerUserId else b.clientId) then
          after == s && result == Err(Forbidden)
        else if !MayReview(s, b, author, role, bookingId, rating) then after == s && result == Err(BadRequest)
        else
          var target := if role == ClientRole then b.clientId else b.providerUserId;
          var review := Review(bookingId, role, target, rating.value);
          && result == Ok(review) && after.reviews == s.reviews + [review]
          && (role == ClientRole ==> after.providers == s.providers)
          && (role == ProviderRole ==> after.clients == s.clients)
  {
  }

  /** What the stored state satisfies at any time. */
  ghost predicate Consistent(s: State) {
    && ProfilesMatch(s) && OnePerBookingAndRole(s.reviews)
    && forall i | 0 <= i < |s.reviews| :: InScale(s.reviews[i].rating)
  }

  lemma AddsOne(s: State, after: State, r: Review, role: Role, user: string)
    requires Adds(s, after, r)
    requires StoredProfile(s, role, user) == RateAll(NO_RATINGS, RatingsOf(s.reviews, role, user))
    ensures StoredProfile(after, role, user) == RateAll(NO_RATINGS, RatingsOf(after.reviews, role, user))
  {
    var ratings := RatingsOf(s.reviews, role, user);
    RatingsSnoc(s.reviews, r, role, user);
    if r.targetRole == role && r.targetUserId == user {
      RateAllSnoc(NO_RATINGS, ratings, r.rating);
    } else {
      assert ratings + [] == ratings;
    }
  }

  lemma AddsKeepsConsistent(s: State, after: State, r: Review)
    requires Consistent(s) && Adds(s, after, r)
    ensures Consistent(after)
  {
    forall role, user
      ensures StoredProfile(after, role, user) == RateAll(NO_RATINGS, RatingsOf(after.reviews, role, user))
    {
      AddsOne(s, after, r, role, user);
    }
  }

  /** Whatever requests are made, every profile is the fold of the reviews kept for that user and role. */
  lemma {:induction false} ProfilesFollowReviews(steps: seq<Step>)
    ensures Consistent(Run(steps))
  {
    if steps != [] {
      var s, t := Run(steps[..|steps| - 1]), steps[|steps| - 1];
      ProfilesFollowReviews(steps[..|steps| - 1]);
      CreateEffect(s, t);
      var (after, result) := Create(s, t.bookings, t.author, t.role, t.bookingId, t.rating);
      if result.Ok? { AddsKeepsConsistent(s, after, result.value); }
    }
  }

  lemma {:induction false} RatingsInScale(reviews: seq<Review>, role: Role, user: string)
    requires forall i | 0 <= i < |reviews| :: InScale(reviews[i].rating)
    ensures AllInScale(RatingsOf(reviews, role, user))
  {
    if reviews != [] { RatingsInScale(reviews[..|reviews| - 1], role, user); }
  }

  /**
   * In every reachable state a profile counts exactly the reviews of its user in its role, and its
   * average is on the scale and within 0.0025 (n + 1) of their true mean.
   */
  lemma ReachableProfile(steps: seq<Step>, role: Role, user: string)
    ensures var s := Run(steps);
      var p := StoredProfile(s, role, user);
      var ratings := RatingsOf(s.reviews, role, user);
      && p.ratingCount == |ratings|
      && (ratings == [] ==> p == NO_RATINGS)
      && (ratings != [] ==>
            && InScale(p.ratingAvg)
            && var n := |ratings| as real;
               -0.0025 * (n + 1.0) <= p.ratingAvg - Total(ratings) / n <= 0.0025 * (n + 1.0))
  {
    ProfilesFollowReviews(steps);
    var ratings := RatingsOf(Run(steps).reviews, role, user);
    RatingsInScale(Run(steps).reviews, role, user);
    if ratings != [] {
      DriftBound(ratings);
      MeanDrift(ratings);
    }
  }
}
