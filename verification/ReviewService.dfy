/** The review service and the two profile services it feeds. */
module ReviewService {
  import opened Common
  import opened Ratings
  import B = Bookings

  /** Client and provider profiles keep their ratings by the same steps. */
  class ProfilesService {
    var profiles: map<string, Profile>

    constructor ()
      ensures profiles == map[]
    {
      profiles := map[];
    }

    method ApplyRating(user: string, rating: real)
      modifies this
      ensures profiles == old(profiles)[user := Rate(ProfileOf(old(profiles), user), rating)]
    {
      var profile := if user in profiles then profiles[user] else NO_RATINGS;
      var nextCount := profile.ratingCount + 1;
      var sum := profile.ratingAvg * profile.ratingCount as real + rating;
      var nextAvg := Round2(sum / nextCount as real);
      TimesIsProduct(profile.ratingCount, profile.ratingAvg);
      RoundedIsNearest(sum, nextCount);
      RateIsNearest(profile, rating);
      NearestUnique(nextAvg, Rate(profile, rating).ratingAvg, sum, nextCount);
      profiles := profiles[user := Profile(nextCount, nextAvg)];
    }
  }

  class ReviewsService {
    var bookings: map<B.Id, B.Booking>
    var reviews: seq<Review>
    const clientProfiles: ProfilesService
    const providers: ProfilesService

    constructor (bookings: map<B.Id, B.Booking>, clientProfiles: ProfilesService, providers: ProfilesService)
      requires clientProfiles != providers
      ensures this.bookings == bookings && reviews == []
      ensures this.clientProfiles == clientProfiles && this.providers == providers
    {
      this.bookings, this.clientProfiles, this.providers := bookings, clientProfiles, providers;
      reviews := [];
    }

    ghost function Contents(): State
      reads this, clientProfiles, providers
    {
      State(reviews, clientProfiles.profiles, providers.profiles)
    }

    method HasReview(bookingId: B.Id, role: Role) returns (found: bool)
      ensures found <==> Reviewed(reviews, bookingId, role)
    {
      found := false;
      for i := 0 to |reviews|
        invariant found <==>
          exists j :: 0 <= j < i && reviews[j].bookingId == bookingId && reviews[j].targetRole == role
      {
        if reviews[i].bookingId == bookingId && reviews[i].targetRole == role { found := true; }
      }
    }

    /** The provider of a completed booking reviews its client. */
    method CreateForProvider(providerUserId: string, bookingId: B.Id, rating: Option<real>) returns (r: Result<Review>)
      requires clientProfiles != providers
      modifies this, clientProfiles
      ensures bookings == old(bookings)
      ensures (Contents(), r) == Create(old(Contents()), bookings, providerUserId, ClientRole, bookingId, rating)
    {
      if bookingId !in bookings { return Err(NotFound); }
      var booking := bookings[bookingId];
      if booking.providerUserId != providerUserId { return Err(Forbidden); }
      if booking.status != B.Completed { return Err(BadRequest); }
      var existing := HasReview(bookingId, ClientRole);
      if existing { return Err(BadRequest); }
      var value :- Normalized(rating);
      var review := Review(bookingId, ClientRole, booking.clientId, value);
      reviews := reviews + [review];
      clientProfiles.ApplyRating(booking.clientId, value);
      r := Ok(review);
    }

    /** The client of a completed booking reviews its provider. */
    method CreateForClient(clientId: string, bookingId: B.Id, rating: Option<real>) returns (r: Result<Review>)
      requires clientProfiles != providers
      modifies this, providers
      ensures bookings == old(bookings)
      ensures (Contents(), r) == Create(old(Contents()), bookings, clientId, ProviderRole, bookingId, rating)
    {
      if bookingId !in bookings { return Err(NotFound); }
      var booking := bookings[bookingId];
      if booking.clientId != clientId { return Err(Forbidden); }
      if booking.status != B.Completed { return Err(BadRequest); }
      var existing := HasReview(bookingId, ProviderRole);
      if existing { return Err(BadRequest); }
      var value :- Normalized(rating);
      var review := Review(bookingId, ProviderRole, booking.providerUserId, value);
      reviews := reviews + [review];
      providers.ApplyRating(booking.providerUserId, value);
      r := Ok(review);
    }
  }
}
