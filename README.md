# GeoScience Explorer — a Dafny model of its page logic

GeoScience Explorer is a Next.js application. It looks up Wikipedia articles near a location, keeps
the ones whose summary mentions science, and lists them by distance. A second page lets a visitor
leave "time capsules", which are notes with an optional image pinned to a location. A weather card
shows the current WMO weather code as an icon and a label.

This project models the decision and state logic of those pages:

- `Weather` (`weather.dfy`) is the weather card.
  - The WMO code table 4677 classification into 7 icons and 15 labels.
  - The loading and empty guard.
- `Text` (`text.dfy`) holds the JavaScript string operations the pages depend on:
  - ASCII `toLowerCase`;
  - `includes`;
  - `trim` with the ECMAScript whitespace set;
  - `substring`;
  - `encodeURIComponent`.
- `Location` (`location.dfy`) holds the location logic both pages share:
  - the ordered coordinate checks;
  - the geolocation error message;
  - the outcome of a city search.
- `Discovery` (`discovery.dfy`) is the science-location discovery.
  - `DiscoveryOutcome` is a pure reference definition.
  - It covers the keyword filter, the enrichment of each geosearch hit, the all-or-nothing join, the filter and the sort.
  - `Discover` and `EnrichEach` are the method that runs it hit by hit and is proved equal to that definition.
- `Explore` (`explore.dfy`) is the explore page as a class.
  - Its fields are the page's state cells.
  - Its methods are the handlers.
  - Its `Valid()` invariant says the shown list is sorted by distance and holds only science-related entries.
- `TimeCapsules` (`time_capsules.dfy`) is the time-capsule page as a class.
  - The capsule list only ever grows, by appending.
  - `Valid()` says no stored capsule has a blank note.

The network is an input.
- A `Network` value carries the geosearch response.
- It also carries, per title or entity id, the summary, page-properties and Wikidata-entity responses. Each response either succeeds or throws (`Fetch`).
- The great-circle distance is a parameter `dist`, so ordering is proved for any distance function.
- The browser's geolocation answer and the geocoder's response are method arguments.
- The capsule id, the timestamp and the file reader's data URL are method arguments too.
- Parsed coordinates are `Option<real>`, with `None` standing for `NaN`.

In `components/weather-card.tsx` the description bands end at 59 and the next starts at 61, so code 60
is "Unknown" and gets the default cloud icon. The described codes are
{0..3} ∪ [45,49] ∪ [51,59] ∪ [61,69] ∪ [71,86] ∪ [95,99].

## Model

| member | source | states |
|---|---|---|
| Weather.WeatherIcon | components/weather-card.tsx:23-36 | total; the exact set of codes for each of the 7 icons; every other code falls back to the plain cloud |
| Weather.WeatherDescription | components/weather-card.tsx:39-55 | total, always one of the 15 labels; 0–3 are "Clear sky", "Mainly clear", "Partly cloudy", "Overcast"; each other label holds exactly on its band: Fog 45–49, Drizzle 51–55, Freezing Drizzle 56–59, Rain 61–65, Freezing Rain 66–69, Snow fall 71–75, Snow grains 76–79, Rain showers 80–84, Snow showers 85–86, Thunderstorm 95–99; "Unknown" exactly outside them |
| Weather.SnowDescriptionsHaveSnowIcon | components/weather-card.tsx:32-52 | every code labelled "Snow fall", "Snow grains" or "Snow showers" gets the snow icon |
| Weather.ThunderstormIffLightning | components/weather-card.tsx:34-53 | a code is "Thunderstorm" exactly when it gets the lightning icon |
| Weather.FogIffFogIcon | components/weather-card.tsx:28-44 | a code is "Fog" exactly when it gets the fog icon |
| Weather.UnknownCodesGetPlainCloud | components/weather-card.tsx:26-54 | a code labelled "Unknown" is shown with the plain cloud icon |
| Weather.WeatherCardView | components/weather-card.tsx:57-75 | the skeleton exactly when loading, whatever the data; nothing exactly when not loading and without data; otherwise the icon and label of the current code |
| Text.Lower | app/explore/page.tsx:216 | same length; every character lower-cased and nothing else changed |
| Text.Includes | app/explore/page.tsx:219 | true exactly when the needle occurs at some index of the text |
| Text.TrimStartDropsBlankPrefix | app/explore/page.tsx:121 | trimming the start removes a whitespace-only prefix and stops at the first non-whitespace character |
| Text.TrimEndDropsBlankSuffix | app/explore/page.tsx:121 | trimming the end removes a whitespace-only suffix and leaves a string that is empty or ends in a non-whitespace character |
| Text.Trim | app/time-capsules/page.tsx:178 | never longer than its input; the result is empty or neither starts nor ends with white space |
| Text.TrimIsMiddle | app/time-capsules/page.tsx:178 | the trimmed string is the input with a whitespace-only prefix and a whitespace-only suffix cut off |
| Text.TrimEmptyIffBlank | app/time-capsules/page.tsx:178 | `trim()` gives "" exactly when every character is whitespace |
| Text.JsSubstring | app/explore/page.tsx:244 | in-range indices give the slice; an end past the string stops at the end; never longer than the index span |
| Text.EncodeUriComponent | app/explore/page.tsx:257 | output only has unreserved characters and `%`; never shorter than the input; the identity on unreserved-only strings |
| Text.EscapePrefixFree | app/explore/page.tsx:257 | the escape of one character is never a prefix of another's: the leading characters of an encoding decide the character |
| Text.EncodeUriComponentInjective | app/explore/page.tsx:257 | different titles are encoded differently, so an article URL names exactly one title |
| Location.ValidateCoordinates | app/explore/page.tsx:94-116 | accepted exactly when both parse and are in the inclusive ranges; otherwise the first failing check, in the order NaN, latitude, longitude, picks the message |
| Location.CornersAccepted | app/time-capsules/page.tsx:101-110 | the bounds ±90 and ±180 themselves are accepted |
| Location.LatitudeCheckedBeforeLongitude | app/time-capsules/page.tsx:101-110 | when both coordinates are out of range the latitude message wins |
| Location.GeolocationErrorMessage | app/explore/page.tsx:68-81 | always starts with the common prefix; codes 1, 2, 3 add their own sentence; any other code gets the bare prefix |
| Location.NoCityFoundMessage | app/explore/page.tsx:142 | the message quotes the query verbatim between its fixed prefix and suffix |
| Location.CitySearch | app/explore/page.tsx:118-160 | blank query exactly when the trimmed query is empty; moves exactly when the query is not blank and the geocoder returns a place, and then to the first place; a throw gives the generic message, an empty answer the message naming the query |
| Location.BlankQueryNeverSearches | app/time-capsules/page.tsx:118-121 | a whitespace-only query is refused before any request, whatever the geocoder would answer |
| Location.CitySearchSkipsRangeCheck | app/time-capsules/page.tsx:138-150 | the city search moves to an out-of-range place that the coordinates form would refuse |
| Discovery.AnyKeyword | app/explore/page.tsx:219 | true exactly when some keyword of the list occurs in the text |
| Discovery.IsScienceRelated | app/explore/page.tsx:216-219 | relevant exactly when one of the 18 keywords is included in the lower-cased extract, or in "" when there is none |
| Discovery.RelevantIffKeywordOccurs | app/explore/page.tsx:182-219 | a hit is science-related exactly when one of the 18 keywords occurs in its lower-cased extract |
| Discovery.MissingExtractNeverRelevant | app/explore/page.tsx:216-219 | a missing extract becomes "" and is never science-related |
| Discovery.RelevanceIgnoresCase | app/explore/page.tsx:216-219 | lower-casing an extract first does not change whether it is relevant |
| Discovery.PhysicsWingIsRelevant | app/explore/page.tsx:182-219 | an extract whose only keyword is in capitals ("a PHYSICS wing") is relevant |
| Discovery.InceptionInfo | app/explore/page.tsx:240-245 | empty without a time value; otherwise the inception label followed by characters 1 to 10 of the time, or by everything after the first character when the time is shorter |
| Discovery.InceptionOfWikidataTime | app/explore/page.tsx:242-244 | a Wikidata time "+1889-03-31T00:00:00Z" becomes the label followed by "1889-03-31" |
| Discovery.WikidataInfo | app/explore/page.tsx:221-249 | non-empty exactly when there is an entity id, its fetch succeeded and the claim has a time |
| Discovery.Enrich | app/explore/page.tsx:204-264 | throws exactly when the summary request throws, or the extract is relevant and the page-properties request throws; null exactly when the summary arrived and its extract is not relevant |
| Discovery.EnrichDescribesKept | app/explore/page.tsx:251-260 | a kept entry copies title and position, has the distance from the centre, the encoded article URL, the summary's extract and thumbnail, is relevant, and carries the inception info |
| Discovery.Settled | app/explore/page.tsx:204-264 | one settled result per hit, in geosearch order, each the enrichment of that hit |
| Discovery.JoinAll | app/explore/page.tsx:266 | rejects exactly when some element threw; otherwise the values in order |
| Discovery.Kept | app/explore/page.tsx:267 | exactly the non-null results, none added |
| Discovery.RelevantEntries | app/explore/page.tsx:204-267 | every entry is the enrichment of some geosearch hit |
| Discovery.KeptIsRelevantEntries | app/explore/page.tsx:266-267 | filtering the joined results gives the per-hit relevant entries in geosearch order |
| Discovery.InsertByDistance | app/explore/page.tsx:272 | inserting adds exactly the new entry and keeps every other one |
| Discovery.InsertKeepsSorted | app/explore/page.tsx:272 | inserting into a list sorted by distance leaves it sorted |
| Discovery.SortByDistance | app/explore/page.tsx:272 | non-decreasing by distance and a permutation of its input |
| Discovery.Titles | app/explore/page.tsx:204-214 | one title per hit, in order |
| Discovery.DiscoveryOutcome | app/explore/page.tsx:167-273 | the reference composition of geosearch, map, join, filter and sort; a found list is non-empty and sorted by distance (its other outcomes are characterised by the lemmas below) |
| Discovery.OutcomeByEntries | app/explore/page.tsx:162-280 | the discovery outcome in terms of the hits: no hits, some request threw, no relevant entry, or the sorted relevant entries |
| Discovery.NoNearbyIffNoHits | app/explore/page.tsx:173-179 | "no nearby" exactly when the geosearch succeeded with no hits or a missing list |
| Discovery.FailedIffARequestThrew | app/explore/page.tsx:266-276 | the generic failure exactly when the geosearch threw or some hit's summary or page-properties request threw |
| Discovery.NoneRelevantIffNoHitRelevant | app/explore/page.tsx:267-270 | "none relevant" exactly when there are hits, none threw and every one was filtered out |
| Discovery.NoEntriesIffAllFilteredOut | app/explore/page.tsx:263-267 | with no request throwing, there are no relevant entries exactly when every hit settled to null |
| Discovery.RelevantEntriesHasKept | app/explore/page.tsx:263-267 | every hit whose enrichment is kept appears among the relevant entries |
| Discovery.FoundIsSortedPermutationOfRelevant | app/explore/page.tsx:266-273 | a found list is non-empty, sorted by distance, a permutation of exactly the relevant entries, and each entry describes one of the hits |
| Discovery.EnrichEach | app/explore/page.tsx:204-267 | the loop over the hits computes whether any request threw and the relevant entries in order, and requests every hit's summary |
| Discovery.Discover | app/explore/page.tsx:162-276 | computes the discovery outcome; requests the summaries of all hits after a successful geosearch and none otherwise |
| Explore.DiscoveryError | app/explore/page.tsx:173-276 | no error exactly on success; the nearby, relevance and generic messages for the other outcomes |
| Explore.ExplorePage.constructor | app/explore/page.tsx:36-43 | the initial state: the default location and its text, empty search, no error, nothing loading, empty list |
| Explore.ExplorePage.EditCitySearch | app/explore/page.tsx:363 | the field holds the typed text |
| Explore.ExplorePage.EditCustomCoordinates | app/explore/page.tsx:391-403 | the fields hold the parsed coordinates |
| Explore.ExplorePage.GetCurrentLocation | app/explore/page.tsx:53-92 | unsupported: the unsupported message and nothing moves; a position moves the location and its text fields and clears the error; an error code sets the built message; loading is down after any answer |
| Explore.ExplorePage.HandleCustomLocationSubmit | app/explore/page.tsx:94-116 | the location moves and the error clears only when every check passes; otherwise the first failing check's message and the location stays |
| Explore.ExplorePage.HandleCitySearch | app/explore/page.tsx:118-160 | a blank query sets its message and starts neither the request nor the loading flag; a found place moves the location and mirrors it in the text fields; errors leave the location; loading is down afterwards |
| Explore.ExplorePage.FetchScienceLocations | app/explore/page.tsx:162-280 | keeps the page invariant; loading down on every path; the error and the list are those of the discovery outcome, with an empty list on every error |
| TimeCapsules.CapsuleImage | app/time-capsules/page.tsx:192 | the preview when one is present and non-empty, otherwise no image |
| TimeCapsules.TimeCapsulePage.constructor | app/time-capsules/page.tsx:29-42 | the initial state: default location, empty form, no messages, no capsules, dialog closed |
| TimeCapsules.TimeCapsulePage.EditCitySearch | app/time-capsules/page.tsx:264 | the field holds the typed text |
| TimeCapsules.TimeCapsulePage.EditCustomCoordinates | app/time-capsules/page.tsx:292-304 | the fields hold the parsed coordinates |
| TimeCapsules.TimeCapsulePage.EditNote | app/time-capsules/page.tsx:356 | the note holds the typed text |
| TimeCapsules.TimeCapsulePage.GetCurrentLocation | app/time-capsules/page.tsx:50-89 | as on the explore page: unsupported message, or a move with mirrored text fields, or the built error message |
| TimeCapsules.TimeCapsulePage.HandleCustomLocationSubmit | app/time-capsules/page.tsx:91-113 | the same ordered checks; the location changes only when they all pass |
| TimeCapsules.TimeCapsulePage.HandleCitySearch | app/time-capsules/page.tsx:115-157 | a blank query neither requests nor loads; an empty answer names the query and leaves the location; a found place moves the location with no range check |
| TimeCapsules.TimeCapsulePage.HandleImageChange | app/time-capsules/page.tsx:159-171 | a chosen file becomes the image and its data URL the preview; choosing nothing changes nothing |
| TimeCapsules.TimeCapsulePage.RemoveImage | app/time-capsules/page.tsx:399-402 | image and preview are both cleared |
| TimeCapsules.TimeCapsulePage.HandleSubmitTimeCapsule | app/time-capsules/page.tsx:173-202 | keeps "no blank note stored"; a blank note sets its error, leaves success cleared and the list and form untouched; otherwise exactly one capsule is appended after the unchanged earlier ones, with the current location, the untrimmed note and the preview image, then success is set and the form reset |
| TimeCapsules.TimeCapsulePage.OpenTimeCapsule | app/time-capsules/page.tsx:204-207 | the capsule is selected and the dialog open |
| TimeCapsules.TimeCapsulePage.CloseDialog | app/time-capsules/page.tsx:527 | the dialog is closed |

## Left out

- The haversine distance and its `toFixed(2)` rounding (`app/explore/page.tsx:298-307`) are floating point and trigonometry. Distance is an abstract function argument.
- `parseFloat` and `isNaN` are not modelled. Parsed coordinates are `Option<real>`, and `None` stands for `NaN`. The geocoder's `lat`/`lon` strings are taken to parse, so a `NaN` location from a malformed answer is not covered.
- The `fetch` calls, URL construction for the requests and JSON parsing (Wikipedia, Wikidata, Nominatim) are inputs. Each response is given as a `Fetch` value. A non-OK HTTP status is folded into a throw or a missing field, depending on what the code does with it.
- The order of the per-hit requests is not modelled. `Promise.all` is a loop in geosearch order, and a rejection does not depend on which request threw first. Nor is the interleaving of an in-flight discovery with other handlers.
- Discovery.SortByDistance: stated as sorted and a permutation. That ties keep their geosearch order (the JavaScript sort is stable) is not proved.
- Text.Lower: only ASCII letters are lower-cased. The full Unicode case mapping of `toLowerCase` is not modelled.
- Text.EncodeUriComponent: lone surrogates, for which `encodeURIComponent` throws, cannot occur in Dafny strings, so that error path is not modelled.
- Weather codes are integers. A non-integer number reaching the weather card is not covered.
- `fetchWeatherData`, the forecast rows, temperature rounding and the rest of the card's layout are left out. They are display code.
- The Leaflet map components, the static pages, the loading page, all JSX layout, `console.error` logging and the `isClient` mount flag are left out. They are UI only.
- Browser geolocation, `FileReader`, `Math.random` ids and `new Date()` timestamps are method arguments. The reader's asynchronous completion is treated as immediate.
