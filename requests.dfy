/** `Request` (geocode.go:17-115): the request record, whose public fields
    the caller fills in, and its private parameter cache, which `Values`
    allocates on the first call and then fills in place with `Set` calls. */
module Requests {
  import opened Wrappers
  import Points
  import opened QueryParams
  import UrlValues
  import opened Lookup

  class Request {
    // One (and only one) of these is meant to be set.
    var address: string
    var location: Option<Points.Point>

    // Optional fields.
    var bounds: Option<Points.Bounds>
    var region: string
    var language: string
    var components: string
    var channel: string
    var sensor: bool

    // Credentials.
    var googleClient: string
    var googleSignature: string
    var googleApiKey: string

    /** The cached parameters: `None` while the Go map is still nil. */
    var values: Option<Params>

    /** A request literal: the given fields, no cache yet. */
    constructor (q: Query)
      ensures Fields() == q && values == None
    {
      address, location, bounds := q.address, q.location, q.bounds;
      region, language, components, channel := q.region, q.language, q.components, q.channel;
      sensor := q.sensor;
      googleClient, googleSignature, googleApiKey := q.client, q.signature, q.apiKey;
      values := None;
    }

    /** The public fields as one value. */
    function Fields(): Query
      reads this
    {
      Query(address, location, bounds, region, language, components, channel,
            sensor, googleClient, googleSignature, googleApiKey)
    }

    /** What the cache holds; a nil map reads as empty. */
    function Cached(): Params
      reads this
    {
      if values.Some? then values.value else map[]
    }

    /** The cache already holds what a call on the current fields would
        give, so calling `Values` again changes nothing. */
    ghost predicate Settled()
      reads this
    {
      values.Some? && Assemble(Fields(), values.value) == values.value
    }

    /** `Request.Values` (geocode.go:39-81): allocate the cache if needed,
        write the parameters into it and return it. The optional filters and
        the credentials are written by the two helpers below, in the order
        the source writes them. */
    method Values() returns (v: Params)
      modifies this`values
      ensures values == Some(v)
      ensures v == Assemble(Fields(), old(Cached()))
      ensures old(Cached()).Keys <= v.Keys
      ensures Settled()
      ensures old(Settled()) ==> v == old(values).value
    {
      if values.None? {
        values := Some(map[]);
      }
      v := values.value;
      ghost var base := v;
      if address != "" {
        v := v[Address := address];
      } else if location.Some? {
        v := v[LatLng := Points.PointString(location.value)];
      } else {
        // the request will fail: the cache is returned as it is
        NoTargetSetsNothing(Fields(), base);
        AssembleIdempotent(Fields(), base);
        return;
      }
      assert v == WithTarget(Fields(), base);
      v := SetFilters(v);
      v := SetCredentials(v);
      v := v[Sensor := FormatBool(sensor)];
      SetAllFollowsRules(Fields(), base);
      AssembleGrows(Fields(), base);
      AssembleIdempotent(Fields(), base);
      values := Some(v);
    }

    /** geocode.go:53-67: each optional filter that is given. */
    method SetFilters(v0: Params) returns (v: Params)
      ensures v == WithFilters(Fields(), v0)
    {
      v := v0;
      if channel != "" {
        v := v[Channel := channel];
      }
      if bounds.Some? {
        v := v[Bounds := Points.BoundsString(bounds.value)];
      }
      if region != "" {
        v := v[Region := region];
      }
      if language != "" {
        v := v[Language := language];
      }
      if components != "" {
        v := v[Components := components];
      }
    }

    /** geocode.go:68-76: the client id, the signature only beside it, the
        API key only without it. */
    method SetCredentials(v0: Params) returns (v: Params)
      ensures v == WithCredentials(Fields(), v0)
    {
      v := v0;
      if googleClient != "" {
        v := v[Client := googleClient];
      }
      if googleSignature != "" && googleClient != "" {
        v := v[Signature := googleSignature];
      }
      if googleApiKey != "" && googleClient == "" {
        v := v[Key := googleApiKey];
      }
    }

    /** `Request.Lookup` (geocode.go:85-115): build and encode the
        parameters, refuse an empty query, GET the endpoint with it, refuse a
        failed exchange or a non-2xx reply, decode the body and classify its
        status. `escape` stands for `url.QueryEscape`. */
    method Lookup(get: string -> Exchange, decode: string -> Decoded, escape: string -> string)
      returns (o: Outcome)
      modifies this`values
      ensures values == Some(Assemble(Fields(), old(Cached())))
      ensures o == LookupOutcome(UrlValues.Encode(values.value, escape), get, decode)
    {
      var v := Values();
      var params := UrlValues.Encode(v, escape);
      if |params| == 0 {
        return Failed(MissingArgument);
      }
      var reply := get(RequestUrl(params));
      if reply.Unreachable? {
        return Failed(TransportError(reply.reason));
      }
      if reply.statusCode < 200 || reply.statusCode >= 300 {
        return Failed(HttpStatusError(reply.statusCode, reply.body));
      }
      var decoded := decode(reply.body);
      if decoded.Malformed? {
        return Failed(DecodeError(decoded.reason));
      }
      var resp := decoded.response;
      if resp.status in FailureStatuses {
        return Failed(ServiceError(resp.status, resp.errorMessage));
      }
      return Found(resp);
    }
  }

  /** On a fresh request, `Lookup` refuses with the missing-argument error
      exactly when neither an address nor a location is set: with a target the
      sensor flag alone makes the query non-empty. */
  lemma FreshLookupNeedsTarget(q: Query, get: string -> Exchange, decode: string -> Decoded,
                               escape: string -> string)
    ensures LookupOutcome(UrlValues.Encode(Assemble(q, map[]), escape), get, decode)
              == Failed(MissingArgument)
            <==> !HasTarget(q)
  {
    if HasTarget(q) {
      assert Sensor in Assemble(q, map[]);
    }
  }

  /** The missing-argument error is a property of a fresh request only:
      once a call has written a target, clearing both the address and the
      location leaves the old parameters in the cache, so the next `Lookup`
      sends them instead of refusing. */
  lemma ClearedTargetIsNotRefused(q1: Query, q2: Query, get: string -> Exchange,
                                  decode: string -> Decoded, escape: string -> string)
    requires HasTarget(q1) && !HasTarget(q2)
    ensures LookupOutcome(UrlValues.Encode(AfterCalls(map[], [q1, q2]), escape), get, decode)
              != Failed(MissingArgument)
  {
    var m1 := Assemble(q1, map[]);
    assert [q1, q2][1..] == [q2] && [q2][1..] == [];
    assert AfterCalls(map[], [q1, q2]) == AfterCalls(m1, [q2]) == Assemble(q2, m1);
    NoTargetSetsNothing(q2, m1);
    assert Sensor in m1;
  }
}
