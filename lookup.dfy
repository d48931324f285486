/** What `Request.Lookup` decides (geocode.go:85-115), with the HTTP
    exchange and the JSON decoder passed in as functions: `get` answers a
    GET of a URL, `decode` reads a reply body. */
module Lookup {
  import opened Responses

  /** The service endpoint (geocode.go:15). */
  const Api: string := "https://maps.googleapis.com/maps/api/geocode/json"

  /** The statuses `Lookup` turns into an error although the HTTP exchange
      succeeded (geocode.go:110). */
  const FailureStatuses: set<string> :=
    {"OVER_QUERY_LIMIT", "REQUEST_DENIED", "INVALID_REQUEST", "UNKNOWN_ERROR"}

  /** What the HTTP client reports for one GET: a failure of the call itself
      (DNS, connect, TLS, ...) or a reply with its status code and body. */
  datatype Exchange = Unreachable(reason: string) | Reply(statusCode: int, body: string)

  /** What the JSON decoder makes of a body. */
  datatype Decoded = Parsed(response: Response) | Malformed(reason: string)

  /** The errors `Lookup` returns; each carries what its message reports. */
  datatype LookupError =
    | MissingArgument                                  // "Missing address or latlng argument"
    | TransportError(reason: string)                   // the client's own error
    | HttpStatusError(statusCode: int, body: string)   // "Failed to lookup address (code %d): %s"
    | DecodeError(reason: string)                      // the decoder's own error
    | ServiceError(status: string, message: string)    // "Lookup failed (%s): %s"

  /** `Lookup`'s two results: the decoded response, or an error. */
  datatype Outcome = Found(response: Response) | Failed(error: LookupError)

  /** The URL of the GET: the endpoint, '?', the encoded parameters. */
  function RequestUrl(params: string): string {
    Api + "?" + params
  }

  /** The status switch (geocode.go:109-114): the four failure statuses
      become a service error carrying the status and the service's message;
      every other status, known or not, returns the response as it is. */
  function Classify(resp: Response): (o: Outcome)
    ensures o.Found? <==> resp.status !in FailureStatuses
    ensures o.Found? ==> o.response == resp
    ensures o.Failed? ==> o.error == ServiceError(resp.status, resp.errorMessage)
    ensures resp.status == "OK" || resp.status == "ZERO_RESULTS" ==> o == Found(resp)
  {
    if resp.status in FailureStatuses then Failed(ServiceError(resp.status, resp.errorMessage))
    else Found(resp)
  }

  /** The reply a successful lookup was decoded from: a non-empty query, a
      2xx reply to its URL, and a body that decodes. */
  predicate Delivered(params: string, get: string -> Exchange, decode: string -> Decoded) {
    && params != ""
    && get(RequestUrl(params)).Reply?
    && 200 <= get(RequestUrl(params)).statusCode < 300
    && decode(get(RequestUrl(params)).body).Parsed?
  }

  /** The outcome of `Lookup` once the parameters are encoded as `params`
      (geocode.go:87-114). */
  function LookupOutcome(params: string, get: string -> Exchange, decode: string -> Decoded): (o: Outcome)
    // an empty query is refused, and only an empty query is refused so
    ensures o == Failed(MissingArgument) <==> params == ""
    // a response is returned exactly when a 2xx reply decodes to a status
    // that is not a failure status, and it is that decoded response
    ensures o.Found? <==>
              Delivered(params, get, decode)
              && decode(get(RequestUrl(params)).body).response.status !in FailureStatuses
    ensures o.Found? ==> o.response == decode(get(RequestUrl(params)).body).response
    // a reply that decodes is classified by its status
    ensures Delivered(params, get, decode) ==> o == Classify(decode(get(RequestUrl(params)).body).response)
    // a failed exchange is the client's error
    ensures params != "" && get(RequestUrl(params)).Unreachable? ==>
              o == Failed(TransportError(get(RequestUrl(params)).reason))
    // a 2xx reply that does not decode is the decoder's error
    ensures params != "" && get(RequestUrl(params)).Reply? ==>
              var reply := get(RequestUrl(params));
              200 <= reply.statusCode < 300 && decode(reply.body).Malformed? ==>
                o == Failed(DecodeError(decode(reply.body).reason))
    // a non-2xx reply is an error carrying the code and the body
    ensures params != "" && get(RequestUrl(params)).Reply? ==>
              var code := get(RequestUrl(params)).statusCode;
              (code < 200 || code >= 300) ==>
                o == Failed(HttpStatusError(code, get(RequestUrl(params)).body))
  {
    if params == "" then Failed(MissingArgument)
    else
      match get(RequestUrl(params))
      case Unreachable(reason) => Failed(TransportError(reason))
      case Reply(code, body) =>
        if code < 200 || code >= 300 then Failed(HttpStatusError(code, body))
        else
          match decode(body)
          case Malformed(reason) => Failed(DecodeError(reason))
          case Parsed(resp) => Classify(resp)
  }

  /** With an empty query no request is made: the outcome does not depend
      on what the network or the decoder would do. */
  lemma NoRequestWithoutParams(get1: string -> Exchange, get2: string -> Exchange,
                               decode1: string -> Decoded, decode2: string -> Decoded)
    ensures LookupOutcome("", get1, decode1) == LookupOutcome("", get2, decode2)
  {
  }

  /** `ZERO_RESULTS` is a successful outcome, not an error. */
  lemma ZeroResultsIsNotAnError(params: string, get: string -> Exchange, decode: string -> Decoded)
    requires Delivered(params, get, decode)
    requires decode(get(RequestUrl(params)).body).response.status == "ZERO_RESULTS"
    ensures LookupOutcome(params, get, decode) == Found(decode(get(RequestUrl(params)).body).response)
  {
  }
}
