/** The flight routes of backend/routes/flights.js: the input guards of
    `/search` and `/price`, the parameters a search sends to the flight
    service, and the cached access token of `getAmadeusToken`. The token
    cache is the state the handlers carry; the clock and the replies of the
    authentication and flight services are parameters. */
module Flights {
  import opened Common
  import opened Text

  // ------------------------------------------------------------- the token

  /** The module-level `amadeusToken` and `tokenExpiry`; `None` is `null`. */
  datatype TokenCache = TokenCache(token: Option<string>, expiry: Option<int>)

  const EmptyCache := TokenCache(None, None)

  /** How long before the service's own expiry the token is dropped. */
  const EarlyRefreshMs := 60_000

  /** The answer of the authentication endpoint: a token valid for
      `expiresIn` seconds, or a failed call. */
  datatype AuthReply = Granted(accessToken: string, expiresIn: int) | AuthFailed

  /** `amadeusToken && tokenExpiry && Date.now() < tokenExpiry`: a zero
      expiry is falsy like a missing one. */
  predicate CacheValid(cache: TokenCache, now: int) {
    && Truthy(cache.token)
    && cache.expiry.Some? && cache.expiry.value != 0
    && now < cache.expiry.value
  }

  /** A cached token is valid on a window of time: never without a
      non-empty token and a non-zero expiry, and then exactly before the
      expiry, so once it has lapsed it stays lapsed. */
  lemma CacheValidWindow(cache: TokenCache, now: int, later: int)
    ensures CacheValid(cache, now) ==> cache.token.Some? && cache.token.value != ""
    ensures Truthy(cache.token) && cache.expiry.Some? && cache.expiry.value != 0
            ==> (CacheValid(cache, now) <==> now < cache.expiry.value)
    ensures now <= later && CacheValid(cache, later) ==> CacheValid(cache, now)
    ensures cache.expiry == Some(0) ==> !CacheValid(cache, now)
  {
  }

  /** `getAmadeusToken()` at instant `now`: a valid cached token is returned
      as is; otherwise the service is asked, and its token is cached until
      one minute before the service says it lapses. A failed call throws and
      leaves the cache as it was. */
  function GetToken(cache: TokenCache, now: int, reply: AuthReply): (r: Step<TokenCache, string>)
    ensures CacheValid(cache, now) ==> r.state == cache && r.result == Ok(cache.token.value)
    ensures !CacheValid(cache, now) && reply.AuthFailed? ==> r.state == cache && r.result == Fail(ServerError)
    ensures !CacheValid(cache, now) && reply.Granted? ==>
      && r.result == Ok(reply.accessToken)
      && r.state.token == Some(reply.accessToken)
      && r.state.expiry.Some?
      && r.state.expiry.value + EarlyRefreshMs == now + reply.expiresIn * 1000
  {
    if CacheValid(cache, now) then Step(Ok(cache.token.value), cache)
    else
      match reply
      case AuthFailed => Step(Fail(ServerError), cache)
      case Granted(token, expiresIn) =>
        Step(Ok(token), TokenCache(Some(token), Some(now + expiresIn * 1000 - EarlyRefreshMs)))
  }

  /** A token granted at `t0` for `expiresIn` seconds (more than the one
      minute margin) is reused, without consulting the service, by every
      call before its early expiry, and the service is asked again by every
      call from then on. */
  lemma TokenReusedUntilEarlyExpiry(cache: TokenCache, t0: int, token: string, expiresIn: int,
                                    now: int, reply: AuthReply)
    requires t0 >= 0 && !CacheValid(cache, t0)
    requires token != "" && expiresIn * 1000 > EarlyRefreshMs
    ensures
      var cached := GetToken(cache, t0, Granted(token, expiresIn)).state;
      var later := GetToken(cached, now, reply);
      && (t0 <= now < t0 + expiresIn * 1000 - EarlyRefreshMs ==> later.result == Ok(token) && later.state == cached)
      && (now >= t0 + expiresIn * 1000 - EarlyRefreshMs ==>
            later.result == (if reply.Granted? then Ok(reply.accessToken) else Fail(ServerError)))
  {
  }

  /** A reused token always has at least the one-minute margin left before
      the service's own expiry. */
  lemma ReusedTokenKeepsMargin(cache: TokenCache, t0: int, token: string, expiresIn: int,
                               now: int, reply: AuthReply)
    requires !CacheValid(cache, t0)
    requires CacheValid(GetToken(cache, t0, Granted(token, expiresIn)).state, now)
    ensures now + EarlyRefreshMs < t0 + expiresIn * 1000
    ensures GetToken(GetToken(cache, t0, Granted(token, expiresIn)).state, now, reply).result == Ok(token)
  {
  }

  /** An empty token from the service is cached but never reused. */
  lemma EmptyTokenNeverReused(cache: TokenCache, t0: int, expiresIn: int, now: int)
    requires !CacheValid(cache, t0)
    ensures !CacheValid(GetToken(cache, t0, Granted("", expiresIn)).state, now)
  {
  }

  // ------------------------------------------------------------ the search

  /** Minimum of two counts. */
  function MinNat(a: nat, b: nat): nat {
    if a <= b then a else b
  }

  /** `code.toUpperCase().substring(0, 3)`. */
  function AirportCode(s: string): (r: string)
    ensures |r| == MinNat(3, |s|)
    ensures forall k :: 0 <= k < |r| ==> r[k] == UpperChar(s[k])
  {
    Upper(s)[..MinNat(3, |s|)]
  }

  lemma UpperCharIdempotent(ch: char)
    ensures UpperChar(UpperChar(ch)) == UpperChar(ch)
  {
  }

  /** A normalised code normalises to itself, so a code the client already
      upper-cased and cut to three letters is sent as typed. */
  lemma AirportCodeIdempotent(s: string)
    ensures AirportCode(AirportCode(s)) == AirportCode(s)
  {
    var c := AirportCode(s);
    var cc := AirportCode(c);
    assert |cc| == |c|;
    forall k | 0 <= k < |c|
      ensures cc[k] == c[k]
    {
      UpperCharIdempotent(s[k]);
    }
  }

  /** A lower-case three-letter code becomes its upper-case form. */
  lemma AirportCodeOfLowerCase()
    ensures AirportCode("jfk") == "JFK"
    ensures AirportCode("lhr5") == "LHR"
  {
    assert AirportCode("jfk")[0] == 'J';
    assert AirportCode("jfk")[1] == 'F';
    assert AirportCode("jfk")[2] == 'K';
    assert AirportCode("lhr5")[0] == 'L';
    assert AirportCode("lhr5")[1] == 'H';
    assert AirportCode("lhr5")[2] == 'R';
  }

  /** The body of a search. `None` stands for a field the body lacks;
      `adults` holds the count `parseInt` reads from the field. */
  datatype SearchBody = SearchBody(
    origin: Option<string>,
    destination: Option<string>,
    departureDate: Option<string>,
    returnDate: Option<string>,
    adults: Option<int>,
    travelClass: Option<string>)

  /** The query sent to the flight-offers endpoint. */
  datatype SearchParams = SearchParams(
    originLocationCode: string,
    destinationLocationCode: string,
    departureDate: string,
    adults: int,
    travelClass: string,
    nonStop: bool,
    max: nat,
    returnDate: Option<string>)

  const DefaultAdults := 1
  const DefaultTravelClass := "ECONOMY"
  const MaxOffers := 10

  predicate SearchComplete(body: SearchBody) {
    Truthy(body.origin) && Truthy(body.destination) && Truthy(body.departureDate)
  }

  /** The guard and the parameter building of `/search`: a missing or empty
      origin, destination or departure date is a 400; otherwise the codes
      are normalised, the destructuring defaults fill in a missing adult
      count and travel class, and a return date is sent only when given. */
  function SearchQuery(body: SearchBody): (r: Outcome<SearchParams>)
    ensures r.Fail? <==> !SearchComplete(body)
    ensures r.Fail? ==> r.failure == BadRequest
    ensures r.Ok? ==>
      var p := r.value;
      && p.originLocationCode == AirportCode(body.origin.value)
      && p.destinationLocationCode == AirportCode(body.destination.value)
      && p.departureDate == body.departureDate.value
      && p.adults == (if body.adults.Some? then body.adults.value else DefaultAdults)
      && p.travelClass == (if body.travelClass.Some? then body.travelClass.value else DefaultTravelClass)
      && !p.nonStop && p.max == MaxOffers
      && (p.returnDate.Some? <==> Truthy(body.returnDate))
      && (p.returnDate.Some? ==> p.returnDate == body.returnDate)
  {
    if !SearchComplete(body) then Fail(BadRequest)
    else
      Ok(SearchParams(
        AirportCode(body.origin.value),
        AirportCode(body.destination.value),
        body.departureDate.value,
        if body.adults.Some? then body.adults.value else DefaultAdults,
        if body.travelClass.Some? then body.travelClass.value else DefaultTravelClass,
        false,
        MaxOffers,
        if Truthy(body.returnDate) then body.returnDate else None))
  }

  /** A round-trip query with the codes already normalised is sent with
      exactly the body's values. */
  lemma NormalisedBodyIsSentAsIs(body: SearchBody)
    requires SearchComplete(body)
    requires AirportCode(body.origin.value) == body.origin.value
    requires AirportCode(body.destination.value) == body.destination.value
    ensures
      var p := SearchQuery(body).value;
      && p.originLocationCode == body.origin.value
      && p.destinationLocationCode == body.destination.value
      && |p.originLocationCode| <= 3 && |p.destinationLocationCode| <= 3
  {
  }

  /** Normalising the normalised query changes nothing: sending the codes
      the service was sent gives the same query. */
  lemma SearchQueryIdempotent(body: SearchBody)
    requires SearchComplete(body)
    ensures
      var p := SearchQuery(body).value;
      var again := SearchBody(Some(p.originLocationCode), Some(p.destinationLocationCode),
                              Some(p.departureDate), p.returnDate, Some(p.adults), Some(p.travelClass));
      SearchQuery(again) == Ok(p)
  {
    AirportCodeIdempotent(body.origin.value);
    AirportCodeIdempotent(body.destination.value);
  }

  /** A flight offer, kept opaque. */
  datatype Offer = Offer(id: string)

  /** The flight-offers endpoint's answer: its `data` array (`None` when
      the reply has none), or a failure with its HTTP status. */
  datatype OffersReply = Offers(data: Option<seq<Offer>>) | OffersError(status: int)

  /** `POST /search`: the guard runs before the token is fetched; a failed
      token fetch and every service failure other than a 400 are 500s; a
      400 from the service is passed on as a 400. */
  function Search(cache: TokenCache, now: int, body: SearchBody, auth: AuthReply,
                  reply: OffersReply): (r: Step<TokenCache, seq<Offer>>)
    ensures !SearchComplete(body) ==> r == Step(Fail(BadRequest), cache)
    ensures SearchComplete(body) ==> r.state == GetToken(cache, now, auth).state
    ensures r.result.Fail? && r.result.failure == BadRequest <==>
      !SearchComplete(body) || (GetToken(cache, now, auth).result.Ok? && reply.OffersError? && reply.status == 400)
    ensures r.result.Fail? ==> r.result.failure == BadRequest || r.result.failure == ServerError
    ensures r.result.Ok? <==> SearchComplete(body) && GetToken(cache, now, auth).result.Ok? && reply.Offers?
    ensures r.result.Ok? ==> r.result.value == (if reply.data.Some? then reply.data.value else [])
  {
    match SearchQuery(body)
    case Fail(f) => Step(Fail(f), cache)
    case Ok(_) =>
      var token := GetToken(cache, now, auth);
      if token.result.Fail? then Step(Fail(ServerError), token.state)
      else
        match reply
        case OffersError(status) => Step(Fail(if status == 400 then BadRequest else ServerError), token.state)
        case Offers(data) => Step(Ok(if data.Some? then data.value else []), token.state)
  }

  /** A rejected search leaves the token cache alone whatever the services
      would have answered, while an accepted one reuses a valid token. */
  lemma RejectedSearchTouchesNothing(cache: TokenCache, now: int, body: SearchBody,
                                     auth1: AuthReply, auth2: AuthReply,
                                     reply1: OffersReply, reply2: OffersReply)
    ensures !SearchComplete(body) ==>
      Search(cache, now, body, auth1, reply1) == Search(cache, now, body, auth2, reply2)
    ensures CacheValid(cache, now) ==> Search(cache, now, body, auth1, reply1).state == cache
  {
  }

  // ------------------------------------------------------------- the price

  /** The pricing endpoint's answer: the priced offers, or a failure. */
  datatype PriceReply = Priced(flightOffers: seq<Offer>) | PriceError

  /** `POST /price`: a missing offer is a 400; every later failure is a
      500, a 400 from the service included; the answer is the first priced
      offer (`None` when the service priced none). */
  function Price(cache: TokenCache, now: int, flightOffer: Option<Offer>, auth: AuthReply,
                 reply: PriceReply): (r: Step<TokenCache, Option<Offer>>)
    ensures flightOffer.None? ==> r == Step(Fail(BadRequest), cache)
    ensures r.result == Fail(BadRequest) <==> flightOffer.None?
    ensures flightOffer.Some? && r.result.Fail? ==> r.result.failure == ServerError
    ensures flightOffer.Some? ==> r.state == GetToken(cache, now, auth).state
    ensures r.result.Ok? <==> flightOffer.Some? && GetToken(cache, now, auth).result.Ok? && reply.Priced?
    ensures r.result.Ok? ==>
      (r.result.value.Some? <==> |reply.flightOffers| > 0)
      && (r.result.value.Some? ==> r.result.value.value == reply.flightOffers[0])
  {
    if flightOffer.None? then Step(Fail(BadRequest), cache)
    else
      var token := GetToken(cache, now, auth);
      if token.result.Fail? then Step(Fail(ServerError), token.state)
      else
        match reply
        case PriceError => Step(Fail(ServerError), token.state)
        case Priced(offers) => Step(Ok(if |offers| > 0 then Some(offers[0]) else None), token.state)
  }

  /** The two routes share the guard-then-token order but not the error
      mapping: a service 400 is a 400 for a search and a 500 for a price. */
  lemma ServiceRejectionMapping(cache: TokenCache, now: int, body: SearchBody, offer: Offer, auth: AuthReply)
    requires SearchComplete(body) && GetToken(cache, now, auth).result.Ok?
    ensures Search(cache, now, body, auth, OffersError(400)).result == Fail(BadRequest)
    ensures Price(cache, now, Some(offer), auth, PriceError).result == Fail(ServerError)
  {
  }
}
