/** The explore page: its state cells and the handlers that update them, one step after another. */
module Explore {
  import opened Wrappers
  import opened Text
  import opened Location
  import opened Discovery

  const NoLocationsMessage := "No locations found nearby. Try a different location."
  const NoScienceMessage := "Found nearby places, but none related to science. Try a different location."
  const FetchFailedMessage := "An error occurred while fetching data. Please try again."

  /** The error a finished discovery leaves on the page; a successful one leaves none. */
  function DiscoveryError(result: DiscoveryResult): (e: Option<string>)
    ensures e.None? <==> result.Found?
    ensures result == NoNearby <==> e == Some(NoLocationsMessage)
    ensures result == NoneRelevant <==> e == Some(NoScienceMessage)
    ensures result == Failed <==> e == Some(FetchFailedMessage)
  {
    match result
    case NoNearby => Some(NoLocationsMessage)
    case NoneRelevant => Some(NoScienceMessage)
    case Found(_) => None
    case Failed => Some(FetchFailedMessage)
  }

  class ExplorePage {
    var location: Coord
    /** The coordinate text fields, as `parseFloat` reads them (None is NaN). */
    var customLat: Option<real>
    var customLon: Option<real>
    var citySearch: string
    var isLoading: bool
    var isLoadingCity: bool
    var error: Option<string>
    var scienceLocations: seq<ScienceLocation>

    /** The listed locations are nearest first, and each passed the relevance test on its own summary. */
    ghost predicate Valid()
      reads this`scienceLocations
    {
      && SortedByDistance(scienceLocations)
      && forall x :: x in scienceLocations ==> IsScienceRelated(x.summary)
    }

    constructor ()
      ensures Valid()
      ensures location == DefaultLocation && customLat == Some(28.6139) && customLon == Some(77.2090)
      ensures citySearch == "" && !isLoading && !isLoadingCity && error == None && scienceLocations == []
    {
      location := DefaultLocation;
      customLat, customLon := Some(28.6139), Some(77.2090);
      citySearch := "";
      isLoading, isLoadingCity := false, false;
      error := None;
      scienceLocations := [];
    }

    /** Typing in the city field. */
    method EditCitySearch(text: string)
      modifies this`citySearch
      ensures citySearch == text
    {
      citySearch := text;
    }

    /** Typing in the coordinate fields; the argument is what `parseFloat` makes of the text. */
    method EditCustomCoordinates(lat: Option<real>, lon: Option<real>)
      modifies this`customLat, this`customLon
      ensures customLat == lat && customLon == lon
    {
      customLat, customLon := lat, lon;
    }

    /** The geolocation button, with the browser's answer as input. */
    method GetCurrentLocation(geo: GeolocationResult)
      requires Valid()
      modifies this
      ensures Valid()
      ensures scienceLocations == old(scienceLocations) && citySearch == old(citySearch)
      ensures isLoadingCity == old(isLoadingCity)
      ensures geo.Unsupported? ==>
                && error == Some(GeolocationUnsupportedMessage) && isLoading == old(isLoading)
                && location == old(location) && customLat == old(customLat) && customLon == old(customLon)
      ensures geo.Position? ==>
                && error == None && !isLoading
                && location == geo.coord && customLat == Some(geo.coord.lat) && customLon == Some(geo.coord.lon)
      ensures geo.PositionError? ==>
                && error == Some(GeolocationErrorMessage(geo.code)) && !isLoading
                && location == old(location) && customLat == old(customLat) && customLon == old(customLon)
    {
      error := None;
      match geo
      case Unsupported =>
        error := Some(GeolocationUnsupportedMessage);
      case Position(coord) =>
        isLoading := true;
        location := coord;
        customLat, customLon := Some(coord.lat), Some(coord.lon);
        isLoading := false;
      case PositionError(code) =>
        isLoading := true;
        error := Some(GeolocationErrorMessage(code));
        isLoading := false;
    }

    /** The coordinates form: the location moves, and the error clears, only when every check passes. */
    method HandleCustomLocationSubmit()
      requires Valid()
      modifies this`location, this`error
      ensures Valid()
      ensures ValidateCoordinates(customLat, customLon).Accepted? ==>
                location == ValidateCoordinates(customLat, customLon).coord && error == None
      ensures ValidateCoordinates(customLat, customLon).Rejected? ==>
                location == old(location) && error == Some(ValidateCoordinates(customLat, customLon).message)
    {
      match ValidateCoordinates(customLat, customLon)
      case Rejected(message) =>
        error := Some(message);
      case Accepted(coord) =>
        location := coord;
        error := None;
    }

    /** The city form, with the geocoder's response as input. `requested` says whether the
        geocoding request was made. */
    method HandleCitySearch(response: Fetch<seq<Coord>>) returns (requested: bool)
      requires Valid()
      modifies this`location, this`customLat, this`customLon, this`error, this`isLoadingCity
      ensures Valid()
      ensures requested <==> Trim(citySearch) != []
      ensures var outcome := CitySearch(citySearch, response);
              && (outcome == BlankQuery ==>
                    error == Some(CityRequiredMessage) && isLoadingCity == old(isLoadingCity)
                    && location == old(location) && customLat == old(customLat) && customLon == old(customLon))
              && (outcome.Moved? ==>
                    error == None && !isLoadingCity
                    && location == outcome.coord
                    && customLat == Some(outcome.coord.lat) && customLon == Some(outcome.coord.lon))
              && (outcome.SearchError? ==>
                    error == Some(outcome.message) && !isLoadingCity
                    && location == old(location) && customLat == old(customLat) && customLon == old(customLon))
    {
      ghost var outcome := CitySearch(citySearch, response);
      if Trim(citySearch) == [] {
        error := Some(CityRequiredMessage);
        return false;
      }
      isLoadingCity := true;
      error := None;
      match response {
        case Threw =>
          assert outcome == SearchError(CitySearchFailedMessage);
          error := Some(CitySearchFailedMessage);
        case Ok(places) =>
          if places == [] {
            assert outcome == SearchError(NoCityFoundMessage(citySearch));
            error := Some(NoCityFoundMessage(citySearch));
          } else {
            assert outcome == Moved(places[0]);
            location := places[0];
            customLat, customLon := Some(places[0].lat), Some(places[0].lon);
          }
      }
      isLoadingCity := false;
      requested := true;
    }

    /** The discovery button: clear, run the discovery around the current location, then show
        its result or its error; the loading flag is down again on every path. */
    method FetchScienceLocations(net: Network, dist: DistanceFn) returns (summaryRequests: seq<string>)
      requires Valid()
      modifies this`isLoading, this`scienceLocations, this`error
      ensures Valid()
      ensures !isLoading
      ensures var result := DiscoveryOutcome(location, net, dist);
              && error == DiscoveryError(result)
              && scienceLocations == (if result.Found? then result.locations else [])
      ensures net.geosearch.Ok? && HitsOf(net.geosearch.value) == [] ==> summaryRequests == []
      ensures net.geosearch.Ok? ==> summaryRequests == Titles(HitsOf(net.geosearch.value))
    {
      isLoading := true;
      scienceLocations := [];
      error := None;
      var result;
      result, summaryRequests := Discover(location, net, dist);
      match result {
        case NoNearby =>
          error := Some(NoLocationsMessage);
        case NoneRelevant =>
          error := Some(NoScienceMessage);
        case Found(locations) =>
          FoundIsSortedPermutationOfRelevant(location, net, dist);
          forall x | x in locations ensures IsScienceRelated(x.summary) {
            var hits := HitsOf(net.geosearch.value);
            var i :| 0 <= i < |hits| && Describes(x, location, hits[i], net, dist);
          }
          scienceLocations := locations;
        case Failed =>
          error := Some(FetchFailedMessage);
      }
      isLoading := false;
    }
  }
}
