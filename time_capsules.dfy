/** The time-capsule page: a list of capsules that only grows, a note form guarded against blank
    notes, and the same location handling as the explore page. */
module TimeCapsules {
  import opened Wrappers
  import opened Text
  import opened Location

  const NoteRequiredMessage := "Please enter a message for your time capsule"
  const CapsuleCreatedMessage := "Your time capsule has been created successfully!"

  /** A capsule; `id` and `timestamp` come from a random number and the clock, so they are inputs. */
  datatype TimeCapsule = TimeCapsule(
    id: string,
    timestamp: string,
    lat: real,
    lon: real,
    note: string,
    image: Option<string>)

  /** `imagePreview || undefined`: an empty preview is as good as none. */
  function CapsuleImage(preview: Option<string>): (image: Option<string>)
    ensures image.Some? <==> preview.Some? && preview.value != ""
    ensures image.Some? ==> image == preview
  {
    if preview.Some? && preview.value != "" then preview else None
  }

  class TimeCapsulePage {
    var location: Coord
    /** The coordinate text fields, as `parseFloat` reads them (None is NaN). */
    var customLat: Option<real>
    var customLon: Option<real>
    var citySearch: string
    var isLoadingCity: bool
    var note: string
    /** The chosen image file, by name. */
    var image: Option<string>
    /** The data URL the file reader produced for it. */
    var imagePreview: Option<string>
    var error: Option<string>
    var success: Option<string>
    var isLoading: bool
    var timeCapsules: seq<TimeCapsule>
    var selectedCapsule: Option<TimeCapsule>
    var isDialogOpen: bool

    /** Every stored capsule carries a note that is not blank. */
    ghost predicate Valid()
      reads this`timeCapsules
    {
      forall i :: 0 <= i < |timeCapsules| ==> !IsBlank(timeCapsules[i].note)
    }

    constructor ()
      ensures Valid()
      ensures location == DefaultLocation && customLat == Some(28.6139) && customLon == Some(77.2090)
      ensures citySearch == "" && !isLoadingCity && note == "" && image == None && imagePreview == None
      ensures error == None && success == None && !isLoading
      ensures timeCapsules == [] && selectedCapsule == None && !isDialogOpen
    {
      location := DefaultLocation;
      customLat, customLon := Some(28.6139), Some(77.2090);
      citySearch := "";
      isLoadingCity := false;
      note := "";
      image, imagePreview := None, None;
      error, success := None, None;
      isLoading := false;
      timeCapsules := [];
      selectedCapsule := None;
      isDialogOpen := false;
    }

    /** Typing in the city field. */
    method EditCitySearch(text: string)
      modifies this`citySearch
      ensures citySearch == text
    {
      citySearch := text;
    }

    /** Typing in the coordinate fields; the argument is what `parseFloat` makes of the text. */
    method EditCustomCoordinates(lat: Option<real>, lon: Option<real>)
      modifies this`customLat, this`customLon
      ensures customLat == lat && customLon == lon
    {
      customLat, customLon := lat, lon;
    }

    /** Typing in the note field. */
    method EditNote(text: string)
      modifies this`note
      ensures note == text
    {
      note := text;
    }

    /** The geolocation button, with the browser's answer as input. */
    method GetCurrentLocation(geo: GeolocationResult)
      requires Valid()
      modifies this`error, this`isLoading, this`location, this`customLat, this`customLon
      ensures Valid()
      ensures geo.Unsupported? ==>
                && error == Some(GeolocationUnsupportedMessage) && isLoading == old(isLoading)
                && location == old(location) && customLat == old(customLat) && customLon == old(customLon)
      ensures geo.Position? ==>
                && error == None && !isLoading
                && location == geo.coord && customLat == Some(geo.coord.lat) && customLon == Some(geo.coord.lon)
      ensures geo.PositionError? ==>
                && error == Some(GeolocationErrorMessage(geo.code)) && !isLoading
                && location == old(location) && customLat == old(customLat) && customLon == old(customLon)
    {
      error := None;
      match geo
      case Unsupported =>
        error := Some(GeolocationUnsupportedMessage);
      case Position(coord) =>
        isLoading := true;
        location := coord;
        customLat, customLon := Some(coord.lat), Some(coord.lon);
        isLoading := false;
      case PositionError(code) =>
        isLoading := true;
        error := Some(GeolocationErrorMessage(code));
        isLoading := false;
    }

    /** The coordinates form: the location moves, and the error clears, only when every check passes. */
    method HandleCustomLocationSubmit()
      requires Valid()
      modifies this`location, this`error
      ensures Valid()
      ensures ValidateCoordinates(customLat, customLon).Accepted? ==>
                location == ValidateCoordinates(customLat, customLon).coord && error == None
      ensures ValidateCoordinates(customLat, customLon).Rejected? ==>
                location == old(location) && error == Some(ValidateCoordinates(customLat, customLon).message)
    {
      match ValidateCoordinates(customLat, customLon)
      case Rejected(message) =>
        error := Some(message);
      case Accepted(coord) =>
        location := coord;
        error := None;
    }

    /** The city form, with the geocoder's response as input. `requested` says whether the
        geocoding request was made. */
    method HandleCitySearch(response: Fetch<seq<Coord>>) returns (requested: bool)
      requires Valid()
      modifies this`location, this`customLat, this`customLon, this`error, this`isLoadingCity
      ensures Valid()
      ensures requested <==> Trim(citySearch) != []
      ensures var outcome := CitySearch(citySearch, response);
              && (outcome == BlankQuery ==>
                    error == Some(CityRequiredMessage) && isLoadingCity == old(isLoadingCity)
                    && location == old(location) && customLat == old(customLat) && customLon == old(customLon))
              && (outcome.Moved? ==>
                    error == None && !isLoadingCity
                    && location == outcome.coord
                    && customLat == Some(outcome.coord.lat) && customLon == Some(outcome.coord.lon))
              && (outcome.SearchError? ==>
                    error == Some(outcome.message) && !isLoadingCity
                    && location == old(location) && customLat == old(customLat) && customLon == old(customLon))
    {
      ghost var outcome := CitySearch(citySearch, response);
      if Trim(citySearch) == [] {
        error := Some(CityRequiredMessage);
        return false;
      }
      isLoadingCity := true;
      error := None;
      match response {
        case Threw =>
          assert outcome == SearchError(CitySearchFailedMessage);
          error := Some(CitySearchFailedMessage);
        case Ok(places) =>
          if places == [] {
            assert outcome == SearchError(NoCityFoundMessage(citySearch));
            error := Some(NoCityFoundMessage(citySearch));
          } else {
            assert outcome == Moved(places[0]);
            location := places[0];
            customLat, customLon := Some(places[0].lat), Some(places[0].lon);
          }
      }
      isLoadingCity := false;
      requested := true;
    }

    /** Choosing a file: when one was chosen it becomes the image, and the file reader's data URL
        becomes the preview. Choosing nothing changes nothing. */
    method HandleImageChange(file: Option<string>, dataUrl: string)
      modifies this`image, this`imagePreview
      ensures file.Some? ==> image == file && imagePreview == Some(dataUrl)
      ensures file.None? ==> image == old(image) && imagePreview == old(imagePreview)
    {
      if file.Some? {
        image := file;
        imagePreview := Some(dataUrl);
      }
    }

    /** The "Remove" button on the preview. */
    method RemoveImage()
      modifies this`image, this`imagePreview
      ensures image == None && imagePreview == None
    {
      image := None;
      imagePreview := None;
    }

    /** The capsule form. A blank note is refused with an error and nothing else changes but the
        cleared success message; otherwise exactly one capsule, at the current location with the
        note as typed, is appended after the earlier ones, and the form is reset. */
    method HandleSubmitTimeCapsule(id: string, timestamp: string) returns (created: bool)
      requires Valid()
      modifies this`error, this`success, this`timeCapsules, this`note, this`image, this`imagePreview
      ensures Valid()
      ensures created <==> !IsBlank(old(note))
      ensures !created ==>
                && error == Some(NoteRequiredMessage) && success == None
                && timeCapsules == old(timeCapsules)
                && note == old(note) && image == old(image) && imagePreview == old(imagePreview)
      ensures created ==>
                && timeCapsules == old(timeCapsules) + [TimeCapsule(id, timestamp, location.lat, location.lon,
                                                                    old(note), CapsuleImage(old(imagePreview)))]
                && error == None && success == Some(CapsuleCreatedMessage)
                && note == "" && image == None && imagePreview == None
    {
      error := None;
      success := None;
      TrimEmptyIffBlank(note);
      if Trim(note) == [] {
        error := Some(NoteRequiredMessage);
        return false;
      }
      var capsule := TimeCapsule(id, timestamp, location.lat, location.lon, note, CapsuleImage(imagePreview));
      timeCapsules := timeCapsules + [capsule];
      success := Some(CapsuleCreatedMessage);
      note := "";
      image := None;
      imagePreview := None;
      created := true;
    }

    /** Opening a capsule from the list shows it in the dialog. */
    method OpenTimeCapsule(capsule: TimeCapsule)
      modifies this`selectedCapsule, this`isDialogOpen
      ensures selectedCapsule == Some(capsule) && isDialogOpen
    {
      selectedCapsule := Some(capsule);
      isDialogOpen := true;
    }

    /** Closing the dialog; the selected capsule stays selected. */
    method CloseDialog()
      modifies this`isDialogOpen
      ensures !isDialogOpen
    {
      isDialogOpen := false;
    }
  }
}
