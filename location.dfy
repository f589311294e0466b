/** Location input handling shared, line for line, by the explore page and the time-capsule page:
    validation of typed coordinates, the geolocation error message, and the city-search outcome. */
module Location {
  import opened Wrappers
  import opened Text

  datatype Coord = Coord(lat: real, lon: real)

  /** The location both pages start from (New Delhi). */
  const DefaultLocation := Coord(28.6139, 77.209)

  const InvalidCoordinatesMessage := "Please enter valid coordinates"
  const LatitudeRangeMessage := "Latitude must be between -90 and 90"
  const LongitudeRangeMessage := "Longitude must be between -180 and 180"
  const CityRequiredMessage := "Please enter a city name"
  const CitySearchFailedMessage := "An error occurred while searching for the city. Please try again."
  const GeolocationUnsupportedMessage :=
    "Geolocation is not supported by your browser. Please enter coordinates or search by city name."
  const GeolocationErrorPrefix := "Unable to retrieve your location. "
  const PermissionDeniedSuffix :=
    "Location permission was denied. Please enable location services in your browser settings."
  const PositionUnavailableSuffix := "Location information is unavailable."
  const TimeoutSuffix := "The request to get user location timed out."

  /** Latitude in [-90, 90] and longitude in [-180, 180], bounds included. */
  predicate InRange(lat: real, lon: real) {
    -90.0 <= lat <= 90.0 && -180.0 <= lon <= 180.0
  }

  /** The verdict on a pair of typed coordinates. */
  datatype Checked = Accepted(coord: Coord) | Rejected(message: string)

  /** The checks of the custom-coordinates form, in order: a NaN in either field, then the
      latitude range, then the longitude range. The fields are already parsed; None is NaN. */
  function ValidateCoordinates(lat: Option<real>, lon: Option<real>): (r: Checked)
    ensures r.Accepted? <==> lat.Some? && lon.Some? && InRange(lat.value, lon.value)
    ensures r.Accepted? ==> r.coord == Coord(lat.value, lon.value)
    ensures r == Rejected(InvalidCoordinatesMessage) <==> lat.None? || lon.None?
    ensures r == Rejected(LatitudeRangeMessage) <==>
              lat.Some? && lon.Some? && !(-90.0 <= lat.value <= 90.0)
    ensures r == Rejected(LongitudeRangeMessage) <==>
              lat.Some? && lon.Some? && -90.0 <= lat.value <= 90.0 && !(-180.0 <= lon.value <= 180.0)
  {
    if lat.None? || lon.None? then Rejected(InvalidCoordinatesMessage)
    else if lat.value < -90.0 || lat.value > 90.0 then Rejected(LatitudeRangeMessage)
    else if lon.value < -180.0 || lon.value > 180.0 then Rejected(LongitudeRangeMessage)
    else Accepted(Coord(lat.value, lon.value))
  }

  /** The bounds are inclusive: the four corners of the coordinate range are accepted. */
  lemma CornersAccepted()
    ensures ValidateCoordinates(Some(90.0), Some(180.0)).Accepted?
    ensures ValidateCoordinates(Some(-90.0), Some(-180.0)).Accepted?
    ensures ValidateCoordinates(Some(-90.0), Some(180.0)).Accepted?
    ensures ValidateCoordinates(Some(90.0), Some(-180.0)).Accepted?
  {
  }

  /** The latitude check comes first: both fields out of range report the latitude. */
  lemma LatitudeCheckedBeforeLongitude(lat: real, lon: real)
    requires !(-90.0 <= lat <= 90.0) && !(-180.0 <= lon <= 180.0)
    ensures ValidateCoordinates(Some(lat), Some(lon)) == Rejected(LatitudeRangeMessage)
  {
  }

  /** What the browser's geolocation call ends in. */
  datatype GeolocationResult =
    | Unsupported               // no `navigator.geolocation`
    | Position(coord: Coord)    // the success callback
    | PositionError(code: int)  // the error callback with `err.code`

  /** The message the error callback sets: a fixed prefix, then a suffix chosen by the code
      (1 permission denied, 2 position unavailable, 3 timeout) and none for any other code. */
  function GeolocationErrorMessage(code: int): (m: string)
    ensures GeolocationErrorPrefix <= m
    ensures m == GeolocationErrorPrefix <==> code != 1 && code != 2 && code != 3
    ensures code == 1 ==> m == GeolocationErrorPrefix + PermissionDeniedSuffix
    ensures code == 2 ==> m == GeolocationErrorPrefix + PositionUnavailableSuffix
    ensures code == 3 ==> m == GeolocationErrorPrefix + TimeoutSuffix
  {
    var suffix :=
      if code == 1 then PermissionDeniedSuffix
      else if code == 2 then PositionUnavailableSuffix
      else if code == 3 then TimeoutSuffix
      else "";
    GeolocationErrorPrefix + suffix
  }

  const NoCityFoundPrefix := "No location found for \""
  const NoCityFoundSuffix := "\". Please try a different search term."

  /** The message for a geocoding search that found nothing; it quotes the query as typed. */
  function NoCityFoundMessage(query: string): (m: string)
    ensures |m| == |NoCityFoundPrefix| + |query| + |NoCityFoundSuffix|
    ensures NoCityFoundPrefix <= m
    ensures m[|NoCityFoundPrefix|..|NoCityFoundPrefix| + |query|] == query
    ensures m[|NoCityFoundPrefix| + |query|..] == NoCityFoundSuffix
  {
    NoCityFoundPrefix + query + NoCityFoundSuffix
  }

  /** How a city search ends, given the query and the geocoder's response (a list of places). */
  datatype CitySearchOutcome =
    | BlankQuery                     // the query trims to "": no request, no loading flag
    | Moved(coord: Coord)            // the first place returned
    | SearchError(message: string)   // nothing found, or the request threw

  function CitySearch(query: string, response: Fetch<seq<Coord>>): (r: CitySearchOutcome)
    ensures r == BlankQuery <==> Trim(query) == []
    ensures r.Moved? <==> Trim(query) != [] && response.Ok? && response.value != []
    ensures r.Moved? ==> r.coord == response.value[0]
    ensures r.SearchError? && response.Threw? ==> r.message == CitySearchFailedMessage
    ensures r.SearchError? && response.Ok? ==> r.message == NoCityFoundMessage(query)
  {
    if Trim(query) == [] then BlankQuery
    else match response
      case Threw => SearchError(CitySearchFailedMessage)
      case Ok(places) =>
        if places == [] then SearchError(NoCityFoundMessage(query)) else Moved(places[0])
  }

  /** A query of whitespace only is refused before any request, whatever the geocoder would say. */
  lemma BlankQueryNeverSearches(query: string, response: Fetch<seq<Coord>>)
    requires IsBlank(query)
    ensures CitySearch(query, response) == BlankQuery
  {
    TrimEmptyIffBlank(query);
  }

  /** The city search moves to whatever the geocoder returns: unlike the coordinates form it does
      not check the range. */
  lemma CitySearchSkipsRangeCheck(query: string, c: Coord)
    requires Trim(query) != [] && !InRange(c.lat, c.lon)
    ensures CitySearch(query, Ok([c])) == Moved(c)
    ensures ValidateCoordinates(Some(c.lat), Some(c.lon)).Rejected?
  {
  }
}
