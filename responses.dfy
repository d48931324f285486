/** The records the service's JSON reply decodes into (geocode.go:117-148).
    JSON decoding itself is not modelled; Go references that may be nil are
    `Option`s and Go slices are sequences. */
module Responses {
  import opened Wrappers
  import Points

  datatype AddressPart = AddressPart(name: string, shortName: string, types: seq<string>)

  /** `bounds` has type `*Bounds` in the source, so a reply without it decodes to
      "no bounds", not to a zero box. */
  datatype Geometry = Geometry(
    bounds: Option<Points.Bounds>,
    location: Points.Point,
    locationType: string,
    viewport: Points.Bounds)

  datatype Result = Result(
    address: string,
    addressParts: seq<AddressPart>,
    geometry: Option<Geometry>,
    types: seq<string>,
    partialMatch: bool,
    placeId: string)

  datatype Response = Response(status: string, errorMessage: string, results: seq<Result>)
}
