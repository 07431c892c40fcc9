/** `services/flightSearchService.ts`: the cached access token, the mapping
    of one flight-offer reply to a `FlightResult`, and the batched search
    over many destinations that stops at the first rate limit and returns
    the flights sorted by price. The HTTP calls are parameters: the token
    endpoint's answer, the flight-offer reply, and the outcome of searching
    one destination. */
module FlightSearch {
  import opened Wrappers
  import opened Text
  import opened Destinations

  // ---------------------------------------------------------------------------
  // Access token cache (`cachedToken`, `getAmadeusAccessToken`)
  // ---------------------------------------------------------------------------

  datatype CachedToken = CachedToken(token: string, expiresAt: int)

  /** What the token endpoint answers on success: `access_token` and the
      optional `expires_in`, in seconds. */
  datatype TokenReply = TokenReply(accessToken: string, expiresIn: Option<int>)

  /** The outcome of one token request and the cache it leaves behind. */
  datatype TokenOutcome = TokenOutcome(result: Result<string, string>, cache: Option<CachedToken>)

  const CredentialsMissing := "Amadeus API credentials are not configured"
  const TokenFailurePrefix := "Failed to get access token: "
  const DefaultExpiresIn := 1799

  /** An environment variable that is set and not empty. */
  predicate Configured(v: Option<string>) {
    v.Some? && v.value != ""
  }

  /** The cache may be reused at time `now` (milliseconds). */
  predicate Reusable(cache: Option<CachedToken>, now: int) {
    cache.Some? && cache.value.expiresAt > now
  }

  /** `data.expires_in || 1799`: a missing or zero lifetime falls back to the default. */
  function Lifetime(expiresIn: Option<int>): (seconds: int)
    ensures expiresIn.Some? && expiresIn.value != 0 ==> seconds == expiresIn.value
    ensures expiresIn.None? ==> seconds == DefaultExpiresIn
  {
    if expiresIn.Some? && expiresIn.value != 0 then expiresIn.value else DefaultExpiresIn
  }

  /** `getAmadeusAccessToken()`, given the credentials, the clock reading
      `now` taken for the expiry check, what the token endpoint would answer
      (`Err(statusText)` when it is not ok) and the clock reading `doneAt`
      taken once that answer has arrived. */
  function TokenStep(cache: Option<CachedToken>, apiKey: Option<string>, apiSecret: Option<string>,
                     now: int, reply: Result<TokenReply, string>, doneAt: int): (o: TokenOutcome)
    ensures !Configured(apiKey) || !Configured(apiSecret) ==> o == TokenOutcome(Err(CredentialsMissing), cache)
    ensures o.result.Ok? ==> o.cache.Some? && o.result.value == o.cache.value.token
    ensures o.cache != cache ==> Configured(apiKey) && Configured(apiSecret) && !Reusable(cache, now) && reply.Ok?
  {
    if !Configured(apiKey) || !Configured(apiSecret) then TokenOutcome(Err(CredentialsMissing), cache)
    else if Reusable(cache, now) then TokenOutcome(Ok(cache.value.token), cache)
    else match reply
      case Err(statusText) => TokenOutcome(Err(TokenFailurePrefix + statusText), cache)
      case Ok(data) =>
        var renewed := CachedToken(data.accessToken, doneAt + Lifetime(data.expiresIn) * 1000);
        TokenOutcome(Ok(renewed.token), Some(renewed))
  }

  /** The module-level `cachedToken` variable and the function that reads and refreshes it. */
  class TokenCache {
    var cached: Option<CachedToken>

    constructor()
      ensures cached == None
    {
      cached := None;
    }

    method AccessToken(apiKey: Option<string>, apiSecret: Option<string>, now: int,
                       reply: Result<TokenReply, string>, doneAt: int) returns (r: Result<string, string>)
      modifies this
      ensures TokenOutcome(r, cached) == TokenStep(old(cached), apiKey, apiSecret, now, reply, doneAt)
    {
      if !Configured(apiKey) || !Configured(apiSecret) {
        return Err(CredentialsMissing);
      }
      if cached.Some? && cached.value.expiresAt > now {
        return Ok(cached.value.token);
      }
      match reply {
        case Err(statusText) =>
          r := Err(TokenFailurePrefix + statusText);
        case Ok(data) =>
          var expiresIn := if data.expiresIn.Some? && data.expiresIn.value != 0 then data.expiresIn.value else DefaultExpiresIn;
          cached := Some(CachedToken(data.accessToken, doneAt + expiresIn * 1000));
          r := Ok(cached.value.token);
      }
    }
  }

  /** While the cached token has not expired, the endpoint is not consulted:
      whatever it would answer, the cached token comes back and the cache stays. */
  lemma {:induction false} CachedTokenReused(cache: Option<CachedToken>, apiKey: Option<string>, apiSecret: Option<string>,
                                             now: int, reply1: Result<TokenReply, string>, doneAt1: int,
                                             reply2: Result<TokenReply, string>, doneAt2: int)
    requires Configured(apiKey) && Configured(apiSecret) && Reusable(cache, now)
    ensures TokenStep(cache, apiKey, apiSecret, now, reply1, doneAt1) == TokenStep(cache, apiKey, apiSecret, now, reply2, doneAt2)
    ensures TokenStep(cache, apiKey, apiSecret, now, reply1, doneAt1) == TokenOutcome(Ok(cache.value.token), cache)
  {
  }

  /** Once `expiresAt <= now`, the endpoint's answer decides: a new token is
      cached with its lifetime counted from the time the answer arrived, and
      a failure leaves the old cache in place. */
  lemma {:induction false} ExpiredTokenRefreshed(cache: Option<CachedToken>, apiKey: Option<string>, apiSecret: Option<string>,
                                                 now: int, reply: Result<TokenReply, string>, doneAt: int)
    requires Configured(apiKey) && Configured(apiSecret) && !Reusable(cache, now)
    ensures reply.Ok? ==>
              (TokenStep(cache, apiKey, apiSecret, now, reply, doneAt) ==
               TokenOutcome(Ok(reply.value.accessToken),
                            Some(CachedToken(reply.value.accessToken, doneAt + Lifetime(reply.value.expiresIn) * 1000))))
    ensures reply.Err? ==>
              (TokenStep(cache, apiKey, apiSecret, now, reply, doneAt) ==
               TokenOutcome(Err(TokenFailurePrefix + reply.error), cache))
  {
  }

  /** A token that arrived at `doneAt` is handed out again at every later
      time before its lifetime has passed, whatever the endpoint would answer
      then. */
  lemma {:induction false} FreshTokenReused(cache: Option<CachedToken>, apiKey: Option<string>, apiSecret: Option<string>,
                                            now: int, reply: Result<TokenReply, string>, doneAt: int,
                                            later: int, laterReply: Result<TokenReply, string>, laterDone: int)
    requires Configured(apiKey) && Configured(apiSecret) && !Reusable(cache, now) && reply.Ok?
    requires doneAt <= later < doneAt + Lifetime(reply.value.expiresIn) * 1000
    ensures TokenStep(TokenStep(cache, apiKey, apiSecret, now, reply, doneAt).cache, apiKey, apiSecret,
                      later, laterReply, laterDone).result
            == Ok(reply.value.accessToken)
  {
    ExpiredTokenRefreshed(cache, apiKey, apiSecret, now, reply, doneAt);
  }

  // ---------------------------------------------------------------------------
  // One destination (`searchFlight`)
  // ---------------------------------------------------------------------------

  datatype Segment = Segment(departureAt: string, arrivalAt: string, carrierCode: string)

  /** One flight offer: the total price (whole units), its currency, and the
      segments of each itinerary. */
  datatype Offer = Offer(total: int, currency: string, itineraries: seq<seq<Segment>>)

  /** The flight-offer reply: its HTTP status and the offers in `data`. */
  datatype Reply = Reply(status: int, data: seq<Offer>)

  datatype FlightResult = FlightResult(
    destination: string,
    destinationCode: string,
    price: int,
    currency: string,
    airline: string,
    departure: string,
    arrival: string,
    duration: string,
    bookingUrl: string)

  /** What `searchFlight` settles to: a flight, `null`, or the rate-limit error it re-throws. */
  datatype SearchOutcome = Found(flight: FlightResult) | NoFlight | RateLimited

  const RateLimitStatus := 429

  /** `response.ok`. */
  predicate Succeeded(status: int) {
    200 <= status <= 299
  }

  /** `data.data[0].itineraries[0]?.segments[0]`, absent when any step is missing. */
  function FirstSegment(offers: seq<Offer>): (r: Option<Segment>)
    ensures r.Some? <==> offers != [] && offers[0].itineraries != [] && offers[0].itineraries[0] != []
    ensures r.Some? ==> r.value == offers[0].itineraries[0][0]
  {
    if offers == [] || offers[0].itineraries == [] || offers[0].itineraries[0] == [] then None
    else Some(offers[0].itineraries[0][0])
  }

  /** `airlineNames`: carrier code to Korean airline name. */
  const Airlines: map<string, string> := map[
    "KE" := "대한항공",
    "OZ" := "아시아나항공",
    "7C" := "제주항공",
    "TW" := "티웨이항공",
    "LJ" := "진에어",
    "BX" := "에어부산",
    "5J" := "필리핀항공",
    "NH" := "전일본공수",
    "JL" := "일본항공"
  ]

  /** `airlineNames[code] || code`. */
  function AirlineName(code: string): (name: string)
    ensures code in Airlines ==> name in Airlines.Values
  {
    if code in Airlines && Airlines[code] != "" then Airlines[code] else code
  }

  /** The carrier code itself is shown exactly when the table has no name for it. */
  lemma {:induction false} AirlineFallback(code: string)
    ensures AirlineName(code) == code <==> code !in Airlines
    ensures code in Airlines ==> AirlineName(code) == Airlines[code]
  {
  }

  /** The price in won: a euro total is multiplied by 1400 and relabelled
      `KRW`; any other currency is kept as it is. */
  function ConvertPrice(total: int, currency: string): (r: (int, string))
    ensures r.1 != "EUR"
    ensures r.1 == currency <==> currency != "EUR"
    ensures currency == "EUR" ==> r.0 == total * 1400
    ensures currency != "EUR" ==> r.0 == total
  {
    if currency == "EUR" then (total * 1400, "KRW") else (total, currency)
  }

  const HourMs := 3_600_000
  const MinuteMs := 60_000

  /** JavaScript's `%`, whose result takes the sign of the dividend. */
  function TruncRem(a: int, b: int): (r: int)
    requires b > 0
    ensures a >= 0 ==> 0 <= r < b
    ensures a < 0 ==> -b < r <= 0
  {
    if a >= 0 then a % b else -((-a) % b)
  }

  /** The `duration` text for an arrival `durationMs` after departure:
      `Math.floor(ms / 3600000)` hours and
      `Math.floor((ms % 3600000) / 60000)` minutes, the hours shown only when
      positive. Division by a positive constant floors in Dafny as `Math.floor` does. */
  function FormatDuration(durationMs: int): (t: string)
    ensures t != [] && t[|t| - 1] == 'm'
  {
    var hours := durationMs / HourMs;
    var minutes := TruncRem(durationMs, HourMs) / MinuteMs;
    if hours > 0 then IntToString(hours) + "h " + IntToString(minutes) + "m"
    else IntToString(minutes) + "m"
  }

  /** Reads a duration text back as a number of whole minutes: `"<h>h <m>m"`
      or `"<m>m"` with plain decimal numbers. */
  function ReadDuration(t: string): (r: Option<nat>)
  {
    if t == [] || t[|t| - 1] != 'm' then None
    else
      var parts := Split(t[..|t| - 1], 'h');
      if |parts| == 1 && parts[0] != [] && AllDigits(parts[0]) then Some(DigitsValue(parts[0]))
      else if |parts| == 2 && parts[0] != [] && AllDigits(parts[0]) && |parts[1]| >= 2 && parts[1][0] == ' '
              && AllDigits(parts[1][1..])
      then Some(60 * DigitsValue(parts[0]) + DigitsValue(parts[1][1..]))
      else None
  }

  lemma {:induction false} DigitsLackH(s: string)
    requires AllDigits(s)
    ensures 'h' !in s
  {
  }

  /** Hours and minutes of a non-negative duration add up to its whole minutes. */
  lemma {:induction false} HoursAndMinutes(ms: int)
    requires ms >= 0
    ensures 0 <= (ms % HourMs) / MinuteMs < 60
    ensures 60 * (ms / HourMs) + (ms % HourMs) / MinuteMs == ms / MinuteMs
    ensures ms / HourMs == (ms / MinuteMs) / 60 && (ms % HourMs) / MinuteMs == (ms / MinuteMs) % 60
  {
    var h := ms / HourMs;
    var m := (ms % HourMs) / MinuteMs;
    var r := (ms % HourMs) % MinuteMs;
    assert ms % HourMs == m * MinuteMs + r;
    assert ms == (60 * h + m) * MinuteMs + r;
    var q := ms / MinuteMs;
    assert q == 60 * h + m;
  }

  /** For a non-negative duration the text reads back as its whole number of
      minutes, with fewer than 60 minutes shown after the hours. */
  lemma {:induction false} DurationRoundTrip(ms: int)
    requires ms >= 0
    ensures ReadDuration(FormatDuration(ms)) == Some(ms / MinuteMs)
  {
    HoursAndMinutes(ms);
    var h := ms / HourMs;
    var m := TruncRem(ms, HourMs) / MinuteMs;
    var t := FormatDuration(ms);
    NatToStringRoundTrip(m);
    DigitsLackH(NatToString(m));
    if h > 0 {
      NatToStringRoundTrip(h);
      DigitsLackH(NatToString(h));
      var body := NatToString(h) + "h " + NatToString(m);
      assert t[..|t| - 1] == body;
      assert body == NatToString(h) + ['h'] + (" " + NatToString(m));
      SplitFirst(NatToString(h), 'h', " " + NatToString(m));
      assert 'h' !in " " + NatToString(m);
      SplitNoSeparator(" " + NatToString(m), 'h');
      assert (" " + NatToString(m))[1..] == NatToString(m);
    } else {
      assert t[..|t| - 1] == NatToString(m);
      SplitNoSeparator(NatToString(m), 'h');
    }
  }

  /** Two non-negative durations show the same text exactly when they have the
      same whole number of minutes. */
  lemma {:induction false} SameTextSameMinutes(a: int, b: int)
    requires a >= 0 && b >= 0
    ensures FormatDuration(a) == FormatDuration(b) <==> a / MinuteMs == b / MinuteMs
  {
    DurationRoundTrip(a);
    DurationRoundTrip(b);
    if a / MinuteMs == b / MinuteMs {
      HoursAndMinutes(a);
      HoursAndMinutes(b);
      assert a / HourMs == b / HourMs;
      assert TruncRem(a, HourMs) / MinuteMs == TruncRem(b, HourMs) / MinuteMs;
    }
  }

  /** An arrival before the departure shows minutes only: the hours are
      negative and so not shown, and the minutes are JavaScript's truncated
      remainder, between -60 and 0. */
  lemma {:induction false} NegativeDurationMinutesOnly(ms: int)
    requires ms < 0
    ensures FormatDuration(ms) == IntToString(TruncRem(ms, HourMs) / MinuteMs) + "m"
    ensures -60 <= TruncRem(ms, HourMs) / MinuteMs <= 0
  {
  }

  /** `s.split('T')[0]`: the date part of an ISO timestamp. */
  function DatePart(s: string): (r: string)
    ensures 'T' !in r
  {
    Split(s, 'T')[0]
  }

  lemma {:induction false} DatePartOfTimestamp(date: string, time: string)
    requires 'T' !in date
    ensures DatePart(date + "T" + time) == date
  {
    SplitFirst(date, 'T', time);
  }

  /** `formattedReturnDate`: the date part of a present, non-empty return
      date, or the empty (falsy) text. */
  function ReturnPart(returnDate: Option<string>): (r: string)
    ensures returnDate.None? ==> r == ""
    ensures 'T' !in r
  {
    if returnDate.Some? && returnDate.value != "" then DatePart(returnDate.value) else ""
  }

  const FlightsLink := "https://www.google.com/travel/flights?q=Flights%20"

  /** The Google Flights search link, with the return date appended when there is one. */
  function BookingUrl(origin: string, destination: string, departure: string, returning: string): (url: string)
    ensures FlightsLink <= url
  {
    var oneWay := FlightsLink + origin + "%20to%20" + destination + "%20on%20" + departure;
    if returning != "" then oneWay + "%20returning%20" + returning else oneWay
  }

  /** A round trip's link is the one-way link followed by the return date. */
  lemma {:induction false} ReturnLinkExtendsOneWay(origin: string, destination: string, departure: string, returning: string)
    requires returning != ""
    ensures BookingUrl(origin, destination, departure, returning) ==
            BookingUrl(origin, destination, departure, "") + "%20returning%20" + returning
  {
  }

  /** `findDestination(destination)?.name || destination`. */
  function DestinationName(destination: string): (name: string)
    ensures FindDestination(destination).None? ==> name == destination
    ensures FindDestination(destination).Some? ==> name == FindDestination(destination).value.name
  {
    var info := FindDestination(destination);
    if info.Some? then
      NamesNonEmpty(info.value);
      if info.value.name != "" then info.value.name else destination
    else destination
  }

  /** The `FlightResult` built from the first offer and its first segment. */
  function ToFlightResult(origin: string, destination: string, departureDate: string, returnDate: Option<string>,
                          offer: Offer, seg: Segment, epochMs: string -> int): (f: FlightResult)
    ensures f.destinationCode == destination
    ensures f.airline == AirlineName(seg.carrierCode)
    ensures f.departure == seg.departureAt && f.arrival == seg.arrivalAt
    ensures (f.price, f.currency) == ConvertPrice(offer.total, offer.currency)
    ensures f.duration == FormatDuration(epochMs(seg.arrivalAt) - epochMs(seg.departureAt))
  {
    var converted := ConvertPrice(offer.total, offer.currency);
    FlightResult(
      DestinationName(destination),
      destination,
      converted.0,
      converted.1,
      AirlineName(seg.carrierCode),
      seg.departureAt,
      seg.arrivalAt,
      FormatDuration(epochMs(seg.arrivalAt) - epochMs(seg.departureAt)),
      BookingUrl(origin, destination, DatePart(departureDate), ReturnPart(returnDate)))
  }

  /** `searchFlight(origin, destination, departureDate, returnDate)`, given the
      token outcome, the flight-offer reply and `epochMs`, which stands for
      `new Date(at).getTime()`. Every failure except a rate limit is caught
      and becomes `null`. */
  function SearchFlight(origin: string, destination: string, departureDate: string, returnDate: Option<string>,
                        token: Result<string, string>, reply: Reply, epochMs: string -> int): (r: SearchOutcome)
    ensures r.RateLimited? <==> token.Ok? && reply.status == RateLimitStatus
    ensures r.Found? <==> token.Ok? && Succeeded(reply.status) && FirstSegment(reply.data).Some?
    ensures r.Found? ==> r.flight == ToFlightResult(origin, destination, departureDate, returnDate,
                                                    reply.data[0], FirstSegment(reply.data).value, epochMs)
  {
    if token.Err? then NoFlight
    else if !Succeeded(reply.status) then
      if reply.status == 404 || reply.status == 400 then NoFlight
      else if reply.status == RateLimitStatus then RateLimited
      else NoFlight
    else if reply.data == [] then NoFlight
    else match FirstSegment(reply.data)
      case None => NoFlight
      case Some(seg) => Found(ToFlightResult(origin, destination, departureDate, returnDate, reply.data[0], seg, epochMs))
  }

  // ---------------------------------------------------------------------------
  // Many destinations (`searchCheapestFlights`)
  // ---------------------------------------------------------------------------

  const BatchSize := 2
  const RateLimitMessage := "API 호출 제한에 걸렸습니다. 잠시 후 다시 시도해주세요."

  /** The codes of a destination list, in order. */
  function Codes(ds: seq<Destination>): (codes: seq<string>)
    ensures |codes| == |ds|
    ensures forall i | 0 <= i < |ds| :: codes[i] == ds[i].code
  {
    if ds == [] then [] else [ds[0].code] + Codes(ds[1..])
  }

  /** `destinations || POPULAR_DESTINATIONS.map(d => d.code)`; an empty list
      is truthy and is kept. */
  function SearchList(destinations: Option<seq<string>>): (r: seq<string>)
    // a given list, even an empty one, is searched as it is
    ensures destinations.Some? ==> r == destinations.value
    // otherwise every popular destination is searched, in table order
    ensures destinations.None? ==>
              |r| == |PopularDestinations| && forall i | 0 <= i < |r| :: r[i] == PopularDestinations[i].code
  {
    if destinations.Some? then destinations.value else Codes(PopularDestinations)
  }

  function Min(a: int, b: int): int {
    if a <= b then a else b
  }

  /** The slices `s.slice(i, i + 2)` for `i = start, start + 2, ...` below `|s|`. */
  function ChunksFrom(s: seq<string>, start: nat): seq<seq<string>>
    decreases |s| - start
  {
    if start >= |s| then [] else [s[start..Min(start + BatchSize, |s|)]] + ChunksFrom(s, start + BatchSize)
  }

  /** The batches: there are `ceil(|s| / 2)` of them. */
  function Chunks(s: seq<string>): (batches: seq<seq<string>>)
    ensures |batches| == (|s| + 1) / 2
  {
    ChunksFromCount(s, 0);
    ChunksFrom(s, 0)
  }

  function Flatten(batches: seq<seq<string>>): seq<string> {
    if batches == [] then [] else batches[0] + Flatten(batches[1..])
  }

  /** The batching loop of `searchCheapestFlights`. */
  method MakeBatches(s: seq<string>) returns (batches: seq<seq<string>>)
    ensures batches == Chunks(s)
  {
    batches := [];
    var i := 0;
    while i < |s|
      invariant i % BatchSize == 0
      invariant Chunks(s) == batches + ChunksFrom(s, i)
      decreases |s| - i
    {
      batches := batches + [s[i..Min(i + BatchSize, |s|)]];
      i := i + BatchSize;
    }
  }

  lemma {:induction false} FlattenAppend(a: seq<seq<string>>, b: seq<seq<string>>)
    ensures Flatten(a + b) == Flatten(a) + Flatten(b)
    decreases |a|
  {
    if a != [] {
      assert (a + b)[0] == a[0];
      assert (a + b)[1..] == a[1..] + b;
      FlattenAppend(a[1..], b);
    } else {
      assert a + b == b;
    }
  }

  lemma {:induction false} ChunksFromFlatten(s: seq<string>, start: nat)
    requires start <= |s|
    ensures Flatten(ChunksFrom(s, start)) == s[start..]
    decreases |s| - start
  {
    if start < |s| {
      var end := Min(start + BatchSize, |s|);
      ChunksFromFlatten(s, end);
      assert s[start..] == s[start..end] + s[end..];
    }
  }

  /** Joining the batches gives back the destination list. */
  lemma {:induction false} ChunksFlatten(s: seq<string>)
    ensures Flatten(Chunks(s)) == s
  {
    ChunksFromFlatten(s, 0);
  }

  lemma {:induction false} ChunksFromSizes(s: seq<string>, start: nat, k: nat)
    requires start % BatchSize == 0 && k < |ChunksFrom(s, start)|
    ensures start + BatchSize * k < |s|
    ensures ChunksFrom(s, start)[k] == s[start + BatchSize * k..Min(start + BatchSize * k + BatchSize, |s|)]
    decreases |s| - start
  {
    if k > 0 {
      ChunksFromSizes(s, start + BatchSize, k - 1);
    }
  }

  /** Batch `k` holds destinations `2k` and `2k + 1`, the last batch possibly
      only one. */
  lemma {:induction false} ChunkSizes(s: seq<string>, k: nat)
    requires k < |Chunks(s)|
    ensures Chunks(s)[k] == s[2 * k..Min(2 * k + 2, |s|)]
    ensures 1 <= |Chunks(s)[k]| <= 2
    ensures k + 1 < |Chunks(s)| ==> |Chunks(s)[k]| == 2
  {
    ChunksFromSizes(s, 0, k);
    if k + 1 < |Chunks(s)| {
      ChunksFromSizes(s, 0, k + 1);
    }
  }

  lemma {:induction false} ChunksFromCount(s: seq<string>, start: nat)
    requires start <= |s| && start % BatchSize == 0
    ensures |ChunksFrom(s, start)| == (|s| - start + 1) / 2
    decreases |s| - start
  {
    if start < |s| && start + BatchSize <= |s| {
      ChunksFromCount(s, start + BatchSize);
    }
  }

  /** `batchResults.some(r => r.status === 'rejected' && r.reason.isRateLimit)`. */
  predicate AnyRateLimited(batch: seq<string>, search: string -> SearchOutcome) {
    exists i | 0 <= i < |batch| :: search(batch[i]).RateLimited?
  }

  /** The fulfilled, non-null results of a list of searches, in order. */
  function FoundFlights(ds: seq<string>, search: string -> SearchOutcome): (r: seq<FlightResult>)
    ensures |r| <= |ds|
  {
    if ds == [] then []
    else (if search(ds[0]).Found? then [search(ds[0]).flight] else []) + FoundFlights(ds[1..], search)
  }

  /** Every collected flight is the result of searching one of the destinations. */
  lemma {:induction false} FoundFlightsSource(ds: seq<string>, search: string -> SearchOutcome, f: FlightResult)
    returns (i: nat)
    requires f in FoundFlights(ds, search)
    ensures i < |ds| && search(ds[i]) == Found(f)
    decreases |ds|
  {
    if search(ds[0]).Found? && f == search(ds[0]).flight {
      i := 0;
    } else {
      var j := FoundFlightsSource(ds[1..], search, f);
      i := j + 1;
    }
  }

  /** Every destination whose search found a flight contributes that flight. */
  lemma {:induction false} FoundFlightsComplete(ds: seq<string>, search: string -> SearchOutcome, i: nat)
    requires i < |ds| && search(ds[i]).Found?
    ensures search(ds[i]).flight in FoundFlights(ds, search)
    decreases |ds|
  {
    if i > 0 {
      FoundFlightsComplete(ds[1..], search, i - 1);
    }
  }

  lemma {:induction false} FoundFlightsAppend(a: seq<string>, b: seq<string>, search: string -> SearchOutcome)
    ensures FoundFlights(a + b, search) == FoundFlights(a, search) + FoundFlights(b, search)
    decreases |a|
  {
    if a != [] {
      assert (a + b)[0] == a[0];
      assert (a + b)[1..] == a[1..] + b;
      FoundFlightsAppend(a[1..], b, search);
    } else {
      assert a + b == b;
    }
  }

  /** What the batch loop gathers: the flights and whether it stopped on a rate limit. */
  datatype Collected = Collected(flights: seq<FlightResult>, rateLimited: bool)

  /** `allFlights.push(...)` ahead of what the remaining batches gather. */
  function Prepend(flights: seq<FlightResult>, c: Collected): Collected {
    Collected(flights + c.flights, c.rateLimited)
  }

  lemma {:induction false} PrependTwice(a: seq<FlightResult>, b: seq<FlightResult>, c: Collected)
    ensures Prepend(a, Prepend(b, c)) == Prepend(a + b, c)
  {
    assert a + (b + c.flights) == (a + b) + c.flights;
  }

  /** The batch loop as a recursion over the remaining batches: a batch with
      a rate limit ends the search and its own results are dropped. */
  function Collect(batches: seq<seq<string>>, search: string -> SearchOutcome): (c: Collected)
    // the loop reports a rate limit exactly when some batch met one
    ensures c.rateLimited <==> exists k | 0 <= k < |batches| :: AnyRateLimited(batches[k], search)
    // at most one flight per destination searched
    ensures |c.flights| <= |Flatten(batches)|
  {
    if batches == [] then Collected([], false)
    else if AnyRateLimited(batches[0], search) then Collected([], true)
    else
      var rest := Collect(batches[1..], search);
      assert forall k | 1 <= k < |batches| :: batches[1..][k - 1] == batches[k];
      Collected(FoundFlights(batches[0], search) + rest.flights, rest.rateLimited)
  }

  lemma {:induction false} CollectStep(batches: seq<seq<string>>, i: nat, search: string -> SearchOutcome)
    requires i < |batches|
    ensures AnyRateLimited(batches[i], search) ==> Collect(batches[i..], search) == Collected([], true)
    ensures !AnyRateLimited(batches[i], search) ==>
              (Collect(batches[i..], search) ==
               var rest := Collect(batches[i + 1..], search);
               Collected(FoundFlights(batches[i], search) + rest.flights, rest.rateLimited))
  {
    assert batches[i..][0] == batches[i];
    assert batches[i..][1..] == batches[i + 1..];
  }

  /** Stopping at batch `k`, the first with a rate limit, keeps the flights of
      all earlier batches and nothing after. */
  lemma {:induction false} CollectStops(batches: seq<seq<string>>, search: string -> SearchOutcome, k: nat)
    requires k < |batches| && AnyRateLimited(batches[k], search)
    requires forall j | 0 <= j < k :: !AnyRateLimited(batches[j], search)
    ensures Collect(batches, search) == Collected(FoundFlights(Flatten(batches[..k]), search), true)
    decreases k
  {
    if k > 0 {
      CollectStops(batches[1..], search, k - 1);
      assert batches[..k] == [batches[0]] + batches[1..][..k - 1];
      FoundFlightsAppend(batches[0], Flatten(batches[1..][..k - 1]), search);
    }
  }

  /** Without a rate limit every batch's flights are kept, in order. */
  lemma {:induction false} CollectAll(batches: seq<seq<string>>, search: string -> SearchOutcome)
    requires forall j | 0 <= j < |batches| :: !AnyRateLimited(batches[j], search)
    ensures Collect(batches, search) == Collected(FoundFlights(Flatten(batches), search), false)
    decreases |batches|
  {
    if batches != [] {
      CollectAll(batches[1..], search);
      FoundFlightsAppend(batches[0], Flatten(batches[1..]), search);
    }
  }

  lemma {:induction false} ChunksPrefix(s: seq<string>, k: nat)
    requires k < |Chunks(s)|
    ensures Flatten(Chunks(s)[..k]) == s[..2 * k]
    decreases k
  {
    if k > 0 {
      ChunksPrefix(s, k - 1);
      ChunkSizes(s, k - 1);
      assert Chunks(s)[..k] == Chunks(s)[..k - 1] + [Chunks(s)[k - 1]];
      FlattenAppend(Chunks(s)[..k - 1], [Chunks(s)[k - 1]]);
      assert Flatten([Chunks(s)[k - 1]]) == Chunks(s)[k - 1];
      assert s[..2 * k] == s[..2 * (k - 1)] + s[2 * (k - 1)..2 * k];
    }
  }

  /** On the destination list: a rate limit in batch `k` (and none before)
      keeps exactly the flights found for the first `2k` destinations;
      without a rate limit the flights found for all of them are kept. */
  lemma {:induction false} RateLimitKeepsEarlierBatches(s: seq<string>, search: string -> SearchOutcome, k: nat)
    requires k < |Chunks(s)| && AnyRateLimited(Chunks(s)[k], search)
    requires forall j | 0 <= j < k :: !AnyRateLimited(Chunks(s)[j], search)
    ensures Collect(Chunks(s), search) == Collected(FoundFlights(s[..2 * k], search), true)
  {
    CollectStops(Chunks(s), search, k);
    ChunksPrefix(s, k);
  }

  lemma {:induction false} NoRateLimitKeepsAll(s: seq<string>, search: string -> SearchOutcome)
    requires forall j | 0 <= j < |Chunks(s)| :: !AnyRateLimited(Chunks(s)[j], search)
    ensures Collect(Chunks(s), search) == Collected(FoundFlights(s, search), false)
  {
    CollectAll(Chunks(s), search);
    ChunksFlatten(s);
  }

  /** Adjacent prices never decrease. */
  predicate SortedByPrice(s: seq<FlightResult>)
    decreases |s|
  {
    |s| < 2 || (s[0].price <= s[1].price && SortedByPrice(s[1..]))
  }

  lemma {:induction false} SortedOrdered(s: seq<FlightResult>, i: nat, j: nat)
    requires SortedByPrice(s) && i < j < |s|
    ensures s[i].price <= s[j].price
    decreases j
  {
    if i > 0 {
      SortedOrdered(s[1..], i - 1, j - 1);
    } else if j > 1 {
      SortedOrdered(s[1..], 0, j - 1);
    }
  }

  /** Places `f` before the first flight that is not cheaper than it. */
  function Insert(f: FlightResult, s: seq<FlightResult>): (r: seq<FlightResult>)
    requires SortedByPrice(s)
    ensures SortedByPrice(r)
    ensures multiset(r) == multiset(s) + multiset{f}
    ensures r[0] == f || (s != [] && r[0] == s[0])
    decreases |s|
  {
    if s == [] || f.price <= s[0].price then [f] + s
    else
      var rest := Insert(f, s[1..]);
      assert s == [s[0]] + s[1..];
      [s[0]] + rest
  }

  /** `flights.sort((a, b) => a.price - b.price)`, by insertion. */
  function SortByPrice(s: seq<FlightResult>): (r: seq<FlightResult>)
    ensures SortedByPrice(r)
    ensures multiset(r) == multiset(s)
    decreases |s|
  {
    if s == [] then []
    else
      assert s == [s[0]] + s[1..];
      Insert(s[0], SortByPrice(s[1..]))
  }

  /** The end of `searchCheapestFlights`: a rate limit with nothing collected
      throws, anything else is returned cheapest first. */
  function Finish(c: Collected): (r: Result<seq<FlightResult>, string>)
    ensures r.Err? <==> c.rateLimited && c.flights == []
    ensures r.Err? ==> r.error == RateLimitMessage
    ensures r.Ok? ==> multiset(r.value) == multiset(c.flights) &&
                      forall i, j | 0 <= i < j < |r.value| :: r.value[i].price <= r.value[j].price
  {
    if c.rateLimited && c.flights == [] then Err(RateLimitMessage)
    else
      var sorted := SortByPrice(c.flights);
      assert forall i, j | 0 <= i < j < |sorted| :: sorted[i].price <= sorted[j].price by {
        forall i, j | 0 <= i < j < |sorted|
          ensures sorted[i].price <= sorted[j].price
        {
          SortedOrdered(sorted, i, j);
        }
      }
      Ok(sorted)
  }

  /** The loop over the batches of `searchCheapestFlights`: each batch is
      searched, a rate limit sets `rateLimitHit` and ends the loop, and
      otherwise the batch's flights are appended. */
  method CollectBatches(batches: seq<seq<string>>, search: string -> SearchOutcome)
    returns (allFlights: seq<FlightResult>, rateLimitHit: bool)
    ensures Collected(allFlights, rateLimitHit) == Collect(batches, search)
  {
    allFlights := [];
    rateLimitHit := false;
    var batchIndex := 0;
    while batchIndex < |batches|
      invariant batchIndex <= |batches|
      invariant !rateLimitHit
      invariant Collect(batches, search) == Prepend(allFlights, Collect(batches[batchIndex..], search))
    {
      if rateLimitHit {
        break;
      }
      var batch := batches[batchIndex];
      CollectStep(batches, batchIndex, search);
      if AnyRateLimited(batch, search) {
        rateLimitHit := true;
        break;
      }
      PrependTwice(allFlights, FoundFlights(batch, search), Collect(batches[batchIndex + 1..], search));
      allFlights := allFlights + FoundFlights(batch, search);
      batchIndex := batchIndex + 1;
    }
    if !rateLimitHit {
      assert batches[batchIndex..] == [];
    }
  }

  /** `searchCheapestFlights(departureDate, returnDate, origin, destinations)`,
      where `search(d)` is what `searchFlight(origin, d, departureDate, returnDate)`
      settles to. */
  method SearchCheapestFlights(destinations: Option<seq<string>>, search: string -> SearchOutcome)
    returns (r: Result<seq<FlightResult>, string>)
    ensures r == Finish(Collect(Chunks(SearchList(destinations)), search))
  {
    var searchDestinations := SearchList(destinations);
    var batches := MakeBatches(searchDestinations);
    var allFlights, rateLimitHit := CollectBatches(batches, search);
    if rateLimitHit && allFlights == [] {
      return Err(RateLimitMessage);
    }
    r := Ok(SortByPrice(allFlights));
  }
}
