# geocode: a verified model of the request builder and lookup decisions

This project models the core of the Go package `geocode`, a client for the
Google Geocoding API. The model covers:

- **The request record** `Request` and its lazily allocated parameter cache.
  - `Request.Values` allocates the cache on the first call.
  - It then writes the query parameters into the cache in place with
    `url.Values.Set`.
  - It returns the cache.
- **The parameter rules.**
  - The address wins over the location.
  - Nothing is written without a target.
  - Each optional filter is written only when it is given.
  - Within one call, a client id suppresses the API key, and the signature needs the client id.
  - The sensor flag is always written once there is a target.
- **The query encoding** `url.Values.Encode`: names in sorted order,
  `name=value` pairs joined by `&`.
- **The decisions `Request.Lookup` makes.**
  - An empty query is refused with the missing-argument error.
  - A failed exchange or a non-2xx reply becomes an error.
  - The decoded status is classified: four failure statuses become a service
    error, and every other status returns the response.
- **The text forms** `Point.String` ("lat,lng") and `Bounds.String` ("ne|sw").

Modules:

- `Wrappers`: `Option`.
- `Points`: the coordinate records, their text forms, and the parsers that
  invert them.
- `QueryParams`:
  - the parameter names and the request's fields as a value;
  - the per-name rule table `Wanted` and the map it describes, `Assemble`;
  - the `Set` calls in the source's order, `SetAll`, proved equal to
    `Assemble`;
  - the cache over successive calls.
- `UrlValues`: `Encode`.
- `Responses`: the records of a reply.
- `Lookup`: the outcome of a lookup as a function of the encoded query, the
  HTTP exchange and the decoder.
- `Requests`: the class modelling `Request`.
  - `Values` is an imperative method that changes only the cache field. It is
    proved to leave the cache equal to `Assemble` of the fields and the old
    cache.
  - `Lookup` mirrors the source's early returns. It is proved equal to
    `LookupOutcome`.

How the model represents the source:

- **Parameter map.** `url.Values` is a map from names to lists of values.
  `Values` only calls `Set`, which replaces the list with a single value, so
  the model keeps one string per name.
- **Keys.** The map is keyed by the enumeration `Name` of the eleven names
  `Values` can write. `Name.Text` is the name on the wire.
  `UrlValues.TextIsInjective` proves that distinct names have distinct texts.
- **Coordinates.** A float64 coordinate is carried as the text `%g` prints
  for it (`Points.GText`). That text is never empty and contains neither ','
  nor '|'.
- **Foreign calls.**
  - The HTTP GET is the parameter `get`.
  - The JSON decoder is the parameter `decode`.
  - `url.QueryEscape` is the parameter `escape`.

Three behaviours of the code a caller may not expect:

- **No target does not always mean an empty query.** The field comment at
  geocode.go:18 asks for exactly one of the address and the location. With
  neither, `Values` returns the cache as it finds it (geocode.go:48-52). The
  result is the empty map only on a fresh request.
  - A request whose earlier call wrote a target keeps those parameters.
  - So `Lookup` does not refuse it (geocode.go:87-90):
    `Requests.ClearedTargetIsNotRefused`.
  - After clearing the address and setting a location, `address` and `latlng`
    are sent together: `QueryParams.StaleAddressSurvives`.
- **The credential rules hold per call, and a client id alone suppresses the
  key.**
  - The client id suppresses the key even without a signature, and a
    signature without a client id is dropped (geocode.go:68-76).
  - The cache keeps an API key an earlier call wrote. After setting the client
    id, `client` and `key` are sent together: `QueryParams.StaleKeySurvives`.
- **Unrecognised statuses succeed.** Every status outside the four failure
  statuses at geocode.go:110 returns the response, including statuses the
  service does not document (geocode.go:112-113).

## Model

| member | source | states |
|---|---|---|
| Points.PointString | geocode.go:159-161 | `Point.String`: the latitude text, ',', the longitude text (what it guarantees is stated by the two lemmas below) |
| Points.BoundsString | geocode.go:150-152 | `Bounds.String`: the north-east corner's text, '\|', the south-west corner's text, each by `PointString` |
| Points.PointTextShape | geocode.go:159-161 | the text of a point has exactly one ',', right after the latitude, and contains no '\|' |
| Points.PointRoundTrip | geocode.go:159-161 | the "lat,lng" text parses back to the same pair of coordinate texts, so joining them with ',' loses nothing (the float-to-`%g` step is not modelled) |
| Points.BoundsRoundTrip | geocode.go:150-152 | the "ne\|sw" text of a viewport parses back to the same viewport: the first '\|' is the one between the corners |
| Points.StringsAreInjective | geocode.go:150-161 | distinct points have distinct texts, and so do distinct viewports |
| QueryParams.FormatBool | geocode.go:78 | the sensor text is "true" or "false", and it is "true" exactly when the flag is set |
| QueryParams.Wanted | geocode.go:44-78 | the rule table: the value one call writes under each name, or none (nothing without a target, the address before the location, each given filter, the client id, the signature only beside it, the key only without it, the sensor flag always) |
| QueryParams.Written | geocode.go:44-78 | one call never writes both `address` and `latlng`, never both `client` and `key`, writes `signature` only beside `client`, and writes `sensor` exactly when there is a target |
| QueryParams.WithTarget | geocode.go:44-52 | the first `Set`: `address` when given, else `latlng` when a location is set |
| QueryParams.WithFilters | geocode.go:53-67 | the filter `Set` calls, in the source's order |
| QueryParams.WithCredentials | geocode.go:68-76 | the credential `Set` calls, in the source's order |
| QueryParams.SetAll | geocode.go:44-78 | all `Set` calls of one call in the source's order, with the sensor flag last, and none without a target |
| QueryParams.Assemble | geocode.go:39-81 | after one call, every name the rules give a value holds that value; every other name is as it was in the cache (present with the same value, or absent) |
| QueryParams.TargetStep | geocode.go:44-52 | the target step writes `address` when the address is given and otherwise `latlng` when a location is given, and touches no other name |
| QueryParams.FiltersStep | geocode.go:53-67 | the filter step writes `channel`, `bounds`, `region`, `language` and `components` as the rules say, and touches no other name |
| QueryParams.CredentialsStep | geocode.go:68-76 | the credential step writes `client`, `signature` and `key` as the rules say, and touches no other name |
| QueryParams.SetAllAt | geocode.go:44-78 | the `Set` calls in the source's order leave each name as the rule table says |
| QueryParams.SetAllFollowsRules | geocode.go:44-78 | the `Set` calls in the source's order build exactly the map the rule table describes |
| QueryParams.AssembleGrows | geocode.go:44-78 | no call removes a name from the cache |
| QueryParams.NoTargetSetsNothing | geocode.go:40-52 | without an address or a location the cache comes back unchanged, and on a fresh request that is the empty map |
| QueryParams.AddressBeforeLocation | geocode.go:44-47 | a given address is written and `latlng` is left alone even when a location is set; with no address a set location is written as `latlng`, leaving `address` alone |
| QueryParams.SensorAlwaysWritten | geocode.go:78 | once there is a target, `sensor` is present and is "true" or "false", matching the flag |
| QueryParams.CredentialPrecedence | geocode.go:68-76 | a client id is written and leaves `key` alone; the signature is written only with a client id; without a client id a given key is written and `client` and `signature` are left alone |
| QueryParams.FreshOptionalParams | geocode.go:53-67 | on a fresh request with a target, each optional filter is present exactly when its field is given, and holds that field (the bounds text for the viewport) |
| QueryParams.FreshParamsAreWritten | geocode.go:40-78 | on a fresh request the parameters are exactly the names the rules write |
| QueryParams.AssembleOverlays | geocode.go:39-78 | one call equals the old cache overridden by what a first call on the same fields writes |
| QueryParams.AssembleIdempotent | geocode.go:39-43 | calling again on unchanged fields leaves the cache as the first call left it |
| QueryParams.AfterCalls | geocode.go:39-43 | the cache after successive calls of `Values`, the fields possibly edited between calls |
| QueryParams.CacheNeverShrinks | geocode.go:39-43 | over any sequence of calls, with the fields edited in between, every name once in the cache stays there |
| QueryParams.RepeatedCallsAgree | geocode.go:39-43 | any number of calls on an unchanged request give the map of the first call |
| QueryParams.StaleAddressSurvives | geocode.go:39-47 | after a call with an address, a call with only a location adds `latlng` beside the old `address` |
| QueryParams.StaleKeySurvives | geocode.go:68-76 | after a call that writes the API key, a call with a client id adds `client` beside the old `key` |
| UrlValues.SortedNamesAreSorted | geocode.go:87 | the encoding order lists every name once, strictly ascending by wire text, as `Encode`'s key sort gives |
| UrlValues.TextIsInjective | geocode.go:44-78 | distinct parameter names have distinct wire texts |
| UrlValues.EncodeNames | geocode.go:87 | the pairs for a list of names are empty exactly when the map holds none of them |
| UrlValues.Encode | geocode.go:87-88 | the encoded query is empty exactly when the map is empty, whatever the escaping does |
| Lookup.Classify | geocode.go:109-114 | the four failure statuses, and only they, give a service error carrying the status and the message; every other status returns the response itself; `OK` and `ZERO_RESULTS` succeed |
| Lookup.RequestUrl | geocode.go:91 | the GET URL: the endpoint, '?', the encoded query |
| Lookup.LookupOutcome | geocode.go:87-114 | the missing-argument error exactly for an empty query; a failed exchange gives the client's error; a non-2xx reply gives the status error with the code and the body; a 2xx body that does not decode gives the decoder's error; a decoded reply is classified by its status; a response comes back exactly when a 2xx reply decodes to a non-failure status, and it is the decoded response |
| Lookup.NoRequestWithoutParams | geocode.go:88-90 | with an empty query the outcome does not depend on the network or the decoder |
| Lookup.ZeroResultsIsNotAnError | geocode.go:109-113 | a delivered `ZERO_RESULTS` reply is returned as a response, not an error |
| Requests.Request.Cached | geocode.go:40-42 | the cache as `Values` finds it; a nil map reads as the empty map it is then allocated as |
| Requests.Request.constructor | geocode.go:17-37 | a request literal has the given fields and no cache |
| Requests.Request.Values | geocode.go:39-81 | the cache is allocated if nil, then holds the parameters and is returned; they are the rule-table map over the old cache, the old names survive, and a second call on unchanged fields returns the same map |
| Requests.Request.SetFilters | geocode.go:53-67 | writes the optional filters into the map as the filter step does |
| Requests.Request.SetCredentials | geocode.go:68-76 | writes the credentials into the map as the credential step does |
| Requests.Request.Lookup | geocode.go:85-115 | the cache is updated as by `Values`, and the outcome is the lookup outcome of the encoded parameters |
| Requests.FreshLookupNeedsTarget | geocode.go:85-90 | on a fresh request `Lookup` refuses with the missing-argument error exactly when neither an address nor a location is set |
| Requests.ClearedTargetIsNotRefused | geocode.go:39-52 | once a call has written a target, clearing both the address and the location does not bring back the missing-argument error |

## Left out

- HTTP: the `http.Client`, its transport and the GET are the parameter `get`. The body is read whole, and `Body.Close` is not modelled.
- JSON: decoding the reply is the parameter `decode`. The record shapes are kept (`Responses`), but the field tags, `omitempty` and the re-encoding of a response are not.
- Floating point: coordinates are the texts `%g` prints for them. Float64 arithmetic and the formatting itself are not modelled, so the model does not show what `%g` loses (every NaN prints as "NaN", and a value is printed to the shortest text that reads back as it).
- `url.QueryEscape` is the parameter `escape`. Its percent-escaping is not modelled.
- Map keys: the cache is keyed by the enumeration of the eleven names `Values` writes, not by arbitrary strings. No other key can enter the cache as `Values` uses it.
- Multiple values: the list of values per name in `url.Values` is not modelled. `Set` always leaves exactly one value.
- Aliasing: `Values` returns the cache map itself, so a caller that edits the returned map edits the cache. The model returns the map as a value.
- Error messages: each error's text is kept only as the variant and the data it carries (status code, body, status, message).
- Concurrency: unsynchronised use of one request from several goroutines is not modelled.
- testcmd/lookup.go: the command-line tool is not part of this model.
- geocode_test.go: JSON decoding and re-encoding of a fixture is not part of this model, since JSON is not modelled.
