/** The `/rate` endpoint (`get_current_rate`): find the latest advisory, read it, answer. */
module Api {
  import opened Wrappers
  import opened Text
  import opened Patterns
  import opened Links
  import opened Extract

  /** The outcome of one HTTP GET: a `requests.RequestException` (network error, timeout, non-2xx), or the parsed page. */
  datatype Fetch<T> = FetchFailed | Fetched(value: T)

  /** What is raised inside the handler's `try`: a request exception, or an `HTTPException` with its status. */
  datatype Raised = RequestError | HttpError(status: nat)

  /** The endpoint's answer: the JSON body, or an error status. */
  datatype Reply = Ok(body: map<string, string>) | Error(status: nat)

  /**
   * The handler's two `except` clauses as written: a request exception becomes 503, and
   * every other exception, the handler's own `HTTPException`s included, becomes 500.
   */
  function ExceptStatus(e: Raised): (status: nat)
    ensures status == 503 <==> e.RequestError?
    ensures status == 500 <==> e.HttpError?
  {
    match e
    case RequestError => 503
    case HttpError(_) => 500
  }

  /** The mapping the raised statuses evidently intend: an `HTTPException` keeps its own status. */
  function IntendedExceptStatus(e: Raised): (status: nat)
    ensures e.RequestError? ==> status == 503
    ensures e.HttpError? ==> status == e.status
  {
    match e
    case RequestError => 503
    case HttpError(s) => s
  }

  /** With the intended mapping, a listing without a rates advisory answers 404, as the handler raises. */
  lemma IntendedNotFoundIs404()
    ensures IntendedExceptStatus(HttpError(404)) == 404 && ExceptStatus(HttpError(404)) == 500
  {
  }

  /** The advisory the handler reads: the latest rates link of a fetched listing page. */
  function AdvisoryUrl(listing: Fetch<seq<Anchor>>): Option<string>
  {
    if listing.Fetched? then LatestRatesLink(listing.value) else None
  }

  /**
   * The handler, with the listing fetch and the advisory fetch as inputs. Any failure is
   * 503 (a fetch failed) or 500 (no advisory, or no rate on it); never 404, because the
   * generic `except` turns the handler's own 404 into a 500. On success the body holds
   * the rate token, the unit "PHP/kWh", the advisory url and, when the date is non-empty,
   * the published date.
   */
  method GetCurrentRate(listing: Fetch<seq<Anchor>>, fetchPage: string -> Fetch<Page>) returns (reply: Reply)
    ensures reply.Error? ==> reply.status == 500 || reply.status == 503
    ensures reply == Error(503) <==>
      listing.FetchFailed? || (AdvisoryUrl(listing).Some? && fetchPage(AdvisoryUrl(listing).value).FetchFailed?)
    ensures reply.Ok? <==>
      AdvisoryUrl(listing).Some? && fetchPage(AdvisoryUrl(listing).value).Fetched?
      && FirstMatch(RatePatterns, fetchPage(AdvisoryUrl(listing).value).value.text).Some?
    ensures reply.Ok? ==>
      var url := AdvisoryUrl(listing).value;
      var page := fetchPage(url).value;
      && reply.body.Keys == {"rate", "unit", "source"} + (if Truthy(PublishedDateOf(page)) then {"published"} else {})
      && reply.body["rate"] == FirstMatch(RatePatterns, page.text).value
      && IsRateToken(reply.body["rate"])
      && reply.body["unit"] == "PHP/kWh"
      && reply.body["source"] == url
      && StartsWith(reply.body["source"], "http")
      && ("published" in reply.body ==> reply.body["published"] == PublishedDateOf(page).value)
    ensures reply.Ok? <==>
      AdvisoryUrl(listing).Some? && fetchPage(AdvisoryUrl(listing).value).Fetched?
      && Search(BareRate, fetchPage(AdvisoryUrl(listing).value).value.text).Some?
  {
    var raised: Raised;
    match listing {
      case FetchFailed =>
        raised := RequestError;
      case Fetched(anchors) =>
        var latest := GetLatestRatesLink(anchors);
        LatestIsFirstRatesLink(anchors);
        if latest.None? {
          raised := HttpError(404);
        } else {
          match fetchPage(latest.value) {
            case FetchFailed =>
              raised := RequestError;
            case Fetched(page) =>
              var rate, publishedDate := ExtractRateAndDate(page);
              RateFoundIffBareMatches(page.text);
              if rate.None? {
                raised := HttpError(500);
              } else {
                RateIsToken(page.text);
                var response := map["rate" := rate.value, "unit" := "PHP/kWh", "source" := latest.value];
                if Truthy(publishedDate) {
                  response := response["published" := publishedDate.value];
                }
                return Ok(response);
              }
          }
        }
    }
    reply := Error(ExceptStatus(raised));
  }
}
