/** Coordinates and viewports (geocode.go, types `Point` and `Bounds`) and
    their text forms, as `Point.String` and `Bounds.String` produce them. */
module Points {
  import opened Wrappers

  /** The characters the `%g` verb of Go's fmt package can print for a
      float64: digits, the decimal point, signs, the exponent marker and the
      letters of "NaN" and "Inf". In particular neither ',' nor '|'. */
  const GChars: string := "0123456789.+-eInfNa"

  predicate IsGText(s: string) {
    |s| > 0 && forall i :: 0 <= i < |s| ==> s[i] in GChars
  }

  /** A float64 coordinate, represented by the text `%g` prints for it.
      Floating point and its formatting are not modelled; what the model keeps
      is that this text is never empty and holds neither ',' nor '|'. */
  type GText = s: string | IsGText(s) witness "0"

  datatype Point = Point(lat: GText, lng: GText)

  datatype Bounds = Bounds(northEast: Point, southWest: Point)

  /** The position of the first `c` in `s`, or `|s|` when there is none. */
  function IndexOf(s: string, c: char): (i: nat)
    ensures i <= |s|
    ensures i < |s| ==> s[i] == c
    ensures forall j :: 0 <= j < i ==> s[j] != c
  {
    if s == [] then 0
    else if s[0] == c then 0
    else 1 + IndexOf(s[1..], c)
  }

  /** `Point.String`: "lat,lng" (`fmt.Sprintf("%g,%g", p.Lat, p.Lng)`). */
  function PointString(p: Point): string {
    p.lat + "," + p.lng
  }

  /** `Bounds.String`: "ne|sw", each corner written by `PointString`
      (`%v` on a `Point` value calls its `String` method). */
  function BoundsString(b: Bounds): string {
    PointString(b.northEast) + "|" + PointString(b.southWest)
  }

  /** Reads "lat,lng" back: the inverse of `PointString`. Not part of the
      program; it shows that the text form loses nothing. */
  function ParsePoint(s: string): (r: Option<Point>)
    ensures r.Some? ==> |s| == |r.value.lat| + 1 + |r.value.lng|
  {
    var i := IndexOf(s, ',');
    if i == |s| then None
    else
      var lat, lng := s[..i], s[i + 1..];
      if IsGText(lat) && IsGText(lng) then Some(Point(lat, lng)) else None
  }

  /** Reads "ne|sw" back: the inverse of `BoundsString`. */
  function ParseBounds(s: string): (r: Option<Bounds>) {
    var i := IndexOf(s, '|');
    if i == |s| then None
    else
      match (ParsePoint(s[..i]), ParsePoint(s[i + 1..]))
      case (Some(ne), Some(sw)) => Some(Bounds(ne, sw))
      case _ => None
  }

  /** A coordinate's text holds neither separator. */
  lemma NoSeparators(t: GText)
    ensures ',' !in t && '|' !in t
  {
    assert ',' !in GChars && '|' !in GChars;
  }

  /** The text of a point holds exactly the one ',' between the
      coordinates, and no '|'. */
  lemma PointTextShape(p: Point)
    ensures '|' !in PointString(p)
    ensures IndexOf(PointString(p), ',') == |p.lat|
    ensures forall j :: |p.lat| < j < |PointString(p)| ==> PointString(p)[j] != ','
  {
    var s := PointString(p);
    NoSeparators(p.lat);
    NoSeparators(p.lng);
    assert s[|p.lat|] == ',';
    forall j | 0 <= j < |s| ensures s[j] != '|' && (j != |p.lat| ==> s[j] != ',') {
      if j < |p.lat| {
        assert s[j] == p.lat[j];
      } else if j > |p.lat| {
        assert s[j] == p.lng[j - |p.lat| - 1];
      }
    }
  }

  /** A point can be read back from its text. */
  lemma PointRoundTrip(p: Point)
    ensures ParsePoint(PointString(p)) == Some(p)
  {
    var s := PointString(p);
    PointTextShape(p);
    assert s[..|p.lat|] == p.lat && s[|p.lat| + 1..] == p.lng;
  }

  /** A viewport can be read back from its text: the first '|' is the one
      between the corners, since a corner's text holds none. */
  lemma BoundsRoundTrip(b: Bounds)
    ensures ParseBounds(BoundsString(b)) == Some(b)
  {
    var ne, sw := PointString(b.northEast), PointString(b.southWest);
    var s := BoundsString(b);
    PointTextShape(b.northEast);
    PointRoundTrip(b.northEast);
    PointRoundTrip(b.southWest);
    assert s[|ne|] == '|';
    assert forall j :: 0 <= j < |ne| ==> s[j] == ne[j];
    assert IndexOf(s, '|') == |ne|;
    assert s[..|ne|] == ne && s[|ne| + 1..] == sw;
  }

  /** Distinct points have distinct texts, and so do distinct viewports. */
  lemma StringsAreInjective(p: Point, q: Point, b: Bounds, c: Bounds)
    ensures PointString(p) == PointString(q) ==> p == q
    ensures BoundsString(b) == BoundsString(c) ==> b == c
  {
    PointRoundTrip(p);
    PointRoundTrip(q);
    BoundsRoundTrip(b);
    BoundsRoundTrip(c);
  }
}
