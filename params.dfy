/** The parameter set `Request.Values` builds (geocode.go:39-81), as a pure
    function of the request's fields and of the cache it starts from.

    `url.Values` is a map from a name to a list of values; `Values` only ever
    calls `Set`, which replaces the list by a single value, so here the map
    holds one string per name. */
module QueryParams {
  import opened Wrappers
  import Points

  /** The parameter names `Values` writes. Only these ever enter the cache,
      so the map is keyed by them; `Text` is the name on the wire. */
  datatype Name =
    | Address | LatLng | Channel | Bounds | Region | Language | Components
    | Client | Signature | Key | Sensor
  {
    function Text(): string {
      match this
      case Address => "address"
      case LatLng => "latlng"
      case Channel => "channel"
      case Bounds => "bounds"
      case Region => "region"
      case Language => "language"
      case Components => "components"
      case Client => "client"
      case Signature => "signature"
      case Key => "key"
      case Sensor => "sensor"
    }
  }

  /** `url.Values` as `Values` uses it: one value per name. */
  type Params = map<Name, string>

  /** The public fields of a `Request` (geocode.go:17-34), as one value. */
  datatype Query = Query(
    address: string,
    location: Option<Points.Point>,
    bounds: Option<Points.Bounds>,
    region: string,
    language: string,
    components: string,
    channel: string,
    sensor: bool,
    client: string,
    signature: string,
    apiKey: string)

  /** The request names what to look up: an address or a location. */
  predicate HasTarget(q: Query) {
    q.address != "" || q.location.Some?
  }

  /** `strconv.FormatBool`. */
  function FormatBool(b: bool): (s: string)
    ensures s == "true" || s == "false"
    ensures s == "true" <==> b
  {
    if b then "true" else "false"
  }

  /** `m` has at `k` exactly what `base` has there (both lack it, or both map
      it to the same value). */
  predicate Unchanged(base: Params, m: Params, k: Name) {
    (k in base ==> k in m && m[k] == base[k]) && (k !in base ==> k !in m)
  }

  function NonEmpty(s: string): Option<string> {
    if s != "" then Some(s) else None
  }

  /** The rule for each parameter, one name at a time: the value one call of
      `Values` writes under `k`, or `None` when it leaves `k` alone
      (geocode.go:44-78). Nothing is written without a target; the address
      wins over the location; optional fields are written when non-empty;
      the client id suppresses the API key and the signature needs the
      client id; the sensor flag is always written. */
  function Wanted(q: Query, k: Name): Option<string> {
    if !HasTarget(q) then None
    else
      match k
      case Address => NonEmpty(q.address)
      case LatLng =>
        if q.address == "" && q.location.Some? then Some(Points.PointString(q.location.value)) else None
      case Channel => NonEmpty(q.channel)
      case Bounds => if q.bounds.Some? then Some(Points.BoundsString(q.bounds.value)) else None
      case Region => NonEmpty(q.region)
      case Language => NonEmpty(q.language)
      case Components => NonEmpty(q.components)
      case Client => NonEmpty(q.client)
      case Signature => if q.client != "" then NonEmpty(q.signature) else None
      case Key => if q.client == "" then NonEmpty(q.apiKey) else None
      case Sensor => Some(FormatBool(q.sensor))
  }

  /** The names one call writes: never both targets, never both the client
      id and the API key, the signature only beside the client id, and the
      sensor flag exactly when there is a target. */
  function Written(q: Query): (ks: set<Name>)
    ensures forall k :: k in ks <==> Wanted(q, k).Some?
    ensures !(Address in ks && LatLng in ks)
    ensures !(Client in ks && Key in ks)
    ensures Signature in ks ==> Client in ks
    ensures Sensor in ks <==> HasTarget(q)
  {
    set k: Name | Wanted(q, k).Some?
  }

  /** The cache after one call of `Values` on a request with fields `q`
      whose cache held `base` (the empty map on the first call): every name
      the rules give a value is set to it, every other entry is kept as it
      was, and nothing is removed. */
  function Assemble(q: Query, base: Params): (m: Params)
    ensures forall k :: Wanted(q, k).Some? ==> k in m && m[k] == Wanted(q, k).value
    ensures forall k :: Wanted(q, k).None? ==> Unchanged(base, m, k)
  {
    map k | k in base.Keys + Written(q) :: if Wanted(q, k).Some? then Wanted(q, k).value else base[k]
  }

  /** The `Set` calls of `Values` in the order the source makes them
      (geocode.go:44-78), in three steps: the target, the optional filters,
      the credentials; the sensor flag comes last. */
  function WithTarget(q: Query, m: Params): Params {
    if q.address != "" then m[Address := q.address]
    else if q.location.Some? then m[LatLng := Points.PointString(q.location.value)]
    else m
  }

  function WithFilters(q: Query, m0: Params): Params {
    var m1 := if q.channel != "" then m0[Channel := q.channel] else m0;
    var m2 := if q.bounds.Some? then m1[Bounds := Points.BoundsString(q.bounds.value)] else m1;
    var m3 := if q.region != "" then m2[Region := q.region] else m2;
    var m4 := if q.language != "" then m3[Language := q.language] else m3;
    if q.components != "" then m4[Components := q.components] else m4
  }

  function WithCredentials(q: Query, m0: Params): Params {
    var m1 := if q.client != "" then m0[Client := q.client] else m0;
    var m2 := if q.signature != "" && q.client != "" then m1[Signature := q.signature] else m1;
    if q.apiKey != "" && q.client == "" then m2[Key := q.apiKey] else m2
  }

  /** All of them; with no target the source returns before the first. */
  function SetAll(q: Query, base: Params): Params {
    if !HasTarget(q) then base
    else WithCredentials(q, WithFilters(q, WithTarget(q, base)))[Sensor := FormatBool(q.sensor)]
  }

  /** `m` holds at `k` what one call on `q` starting from `base` leaves
      there: the rules' value if they give one, `base`'s entry otherwise. */
  predicate Follows(q: Query, base: Params, m: Params, k: Name) {
    if Wanted(q, k).Some? then k in m && m[k] == Wanted(q, k).value else Unchanged(base, m, k)
  }

  /** Maps that agree at every name are equal. */
  lemma SameAtEveryName(m: Params, a: Params)
    requires forall k :: Unchanged(a, m, k)
    ensures m == a
  {
    forall k ensures (k in m <==> k in a) && (k in m ==> m[k] == a[k]) {
      assert Unchanged(a, m, k);
    }
    assert m.Keys == a.Keys;
  }

  lemma TargetStep(q: Query, m: Params, k: Name)
    requires HasTarget(q)
    ensures k == Address || k == LatLng ==> Follows(q, m, WithTarget(q, m), k)
    ensures k != Address && k != LatLng ==> Unchanged(m, WithTarget(q, m), k)
  {
  }

  lemma FiltersStep(q: Query, m: Params, k: Name)
    requires HasTarget(q)
    ensures k.Channel? || k.Bounds? || k.Region? || k.Language? || k.Components? ==>
              Follows(q, m, WithFilters(q, m), k)
    ensures !(k.Channel? || k.Bounds? || k.Region? || k.Language? || k.Components?) ==>
              Unchanged(m, WithFilters(q, m), k)
  {
  }

  lemma CredentialsStep(q: Query, m: Params, k: Name)
    requires HasTarget(q)
    ensures k.Client? || k.Signature? || k.Key? ==> Follows(q, m, WithCredentials(q, m), k)
    ensures !(k.Client? || k.Signature? || k.Key?) ==> Unchanged(m, WithCredentials(q, m), k)
  {
  }

  /** The `Set` calls in the source's order follow the rules, name by name. */
  lemma SetAllAt(q: Query, base: Params, k: Name)
    ensures Follows(q, base, SetAll(q, base), k)
  {
    if HasTarget(q) {
      var m1 := WithTarget(q, base);
      var m2 := WithFilters(q, m1);
      var m3 := WithCredentials(q, m2);
      TargetStep(q, base, k);
      FiltersStep(q, m1, k);
      CredentialsStep(q, m2, k);
      assert SetAll(q, base) == m3[Sensor := FormatBool(q.sensor)];
    }
  }

  /** ... and so they build exactly the map the rules describe. */
  lemma SetAllFollowsRules(q: Query, base: Params)
    ensures SetAll(q, base) == Assemble(q, base)
  {
    var m, a := SetAll(q, base), Assemble(q, base);
    forall k ensures Unchanged(a, m, k) {
      SetAllAt(q, base, k);
    }
    SameAtEveryName(m, a);
  }

  /** Keys only accumulate: no call removes a parameter from the cache. */
  lemma AssembleGrows(q: Query, base: Params)
    ensures base.Keys <= Assemble(q, base).Keys
  {
  }

  /** With neither an address nor a location the call returns the cache as
      it found it; on a fresh request that is the empty map (geocode.go:48-52). */
  lemma NoTargetSetsNothing(q: Query, base: Params)
    requires !HasTarget(q)
    ensures Assemble(q, base) == base
    ensures Assemble(q, map[]) == map[]
  {
  }

  /** The address takes precedence over the location (geocode.go:44-47). */
  lemma AddressBeforeLocation(q: Query, base: Params)
    ensures var m := Assemble(q, base);
      q.address != "" ==> Address in m && m[Address] == q.address && Unchanged(base, m, LatLng)
    ensures var m := Assemble(q, base);
      q.address == "" && q.location.Some? ==>
        LatLng in m && m[LatLng] == Points.PointString(q.location.value) && Unchanged(base, m, Address)
  {
  }

  /** Once there is a target the sensor flag is written as "true" or
      "false" (geocode.go:78). */
  lemma SensorAlwaysWritten(q: Query, base: Params)
    requires HasTarget(q)
    ensures var m := Assemble(q, base);
      Sensor in m && (m[Sensor] == "true" || m[Sensor] == "false")
      && (m[Sensor] == "true" <==> q.sensor)
  {
  }

  /** Credential precedence (geocode.go:68-76): a client id is written and
      suppresses the API key; the signature is written only with a client
      id; without a client id the key is written alone. */
  lemma CredentialPrecedence(q: Query, base: Params)
    requires HasTarget(q)
    ensures var m := Assemble(q, base);
      q.client != "" ==> Client in m && m[Client] == q.client && Unchanged(base, m, Key)
    ensures var m := Assemble(q, base);
      q.client != "" && q.signature != "" ==> Signature in m && m[Signature] == q.signature
    ensures var m := Assemble(q, base);
      q.client == "" || q.signature == "" ==> Unchanged(base, m, Signature)
    ensures var m := Assemble(q, base);
      q.client == "" && q.apiKey != "" ==>
        Key in m && m[Key] == q.apiKey
        && Unchanged(base, m, Client) && Unchanged(base, m, Signature)
  {
  }

  /** On a fresh request with a target, each optional parameter is present
      exactly when its field is non-empty (or, for the viewport, set), and
      holds that field (geocode.go:53-67). */
  lemma FreshOptionalParams(q: Query)
    requires HasTarget(q)
    ensures var m := Assemble(q, map[]);
      && (Channel in m <==> q.channel != "") && (Channel in m ==> m[Channel] == q.channel)
      && (Region in m <==> q.region != "") && (Region in m ==> m[Region] == q.region)
      && (Language in m <==> q.language != "") && (Language in m ==> m[Language] == q.language)
      && (Components in m <==> q.components != "") && (Components in m ==> m[Components] == q.components)
      && (Bounds in m <==> q.bounds.Some?)
      && (Bounds in m ==> m[Bounds] == Points.BoundsString(q.bounds.value))
  {
  }

  /** On a fresh request the parameters are exactly the names the rules
      write: one call never leaves anything else behind. */
  lemma FreshParamsAreWritten(q: Query)
    ensures Assemble(q, map[]).Keys == Written(q)
  {
  }

  /** One call overrides the cache with the fresh parameters: the result is
      the old cache updated by what a first call on the same fields gives. */
  lemma AssembleOverlays(q: Query, base: Params)
    ensures Assemble(q, base) == base + Assemble(q, map[])
  {
  }

  /** A second call on an unchanged request returns the same map as the
      first (geocode.go:39-43: the cache is reused and `Set` writes the same
      values again). */
  lemma AssembleIdempotent(q: Query, base: Params)
    ensures Assemble(q, Assemble(q, base)) == Assemble(q, base)
  {
  }

  /** The cache after successive calls of `Values`, the request's fields
      being `qs[0]`, `qs[1]`, ... at the successive calls (callers may edit
      the public fields between calls). */
  function AfterCalls(base: Params, qs: seq<Query>): Params
    decreases |qs|
  {
    if qs == [] then base else AfterCalls(Assemble(qs[0], base), qs[1..])
  }

  /** The cache is allocated once and afterwards only grows: whatever any
      earlier call wrote stays in the cache under some value, however the
      fields change in between. */
  lemma {:induction false} CacheNeverShrinks(base: Params, qs: seq<Query>)
    ensures base.Keys <= AfterCalls(base, qs).Keys
    decreases |qs|
  {
    if qs != [] {
      AssembleGrows(qs[0], base);
      CacheNeverShrinks(Assemble(qs[0], base), qs[1..]);
    }
  }

  /** Repeating the call on an unmodified request any number of times gives
      the map of the first call. */
  lemma {:induction false} RepeatedCallsAgree(base: Params, q: Query, n: nat)
    requires n >= 1
    ensures AfterCalls(base, seq(n, _ => q)) == Assemble(q, base)
    decreases n
  {
    var qs := seq(n, _ => q);
    assert qs[0] == q && qs[1..] == seq(n - 1, _ => q);
    if n > 1 {
      RepeatedCallsAgree(Assemble(q, base), q, n - 1);
      AssembleIdempotent(q, base);
    }
  }

  /** A consequence of the cache: once a call has written the address,
      clearing the address and setting a location makes the next call add
      `latlng` beside the stale `address`, so the one-target rule holds per
      call, not for the cache. */
  lemma StaleAddressSurvives(base: Params, q1: Query, q2: Query)
    requires q1.address != ""
    requires q2.address == "" && q2.location.Some?
    ensures var m := AfterCalls(base, [q1, q2]);
      Address in m && m[Address] == q1.address
      && LatLng in m && m[LatLng] == Points.PointString(q2.location.value)
  {
    var m1 := Assemble(q1, base);
    assert [q1, q2][1..] == [q2] && [q2][1..] == [];
    assert AfterCalls(base, [q1, q2]) == AfterCalls(m1, [q2]) == Assemble(q2, m1);
  }
  /** The same holds for the credentials: once a call has written the API
      key, setting a client id makes the next call add `client` beside the
      stale `key`, so the client id suppresses the key within one call only. */
  lemma StaleKeySurvives(base: Params, q1: Query, q2: Query)
    requires HasTarget(q1) && q1.client == "" && q1.apiKey != ""
    requires HasTarget(q2) && q2.client != ""
    ensures var m := AfterCalls(base, [q1, q2]);
      Key in m && m[Key] == q1.apiKey && Client in m && m[Client] == q2.client
  {
    var m1 := Assemble(q1, base);
    assert [q1, q2][1..] == [q2] && [q2][1..] == [];
    assert AfterCalls(base, [q1, q2]) == AfterCalls(m1, [q2]) == Assemble(q2, m1);
  }

}
