/** Science-location discovery: the geosearch hits around a location are enriched one by one
    (article summary, keyword relevance test, optional Wikidata inception date), the irrelevant
    ones are dropped, and the survivors are ordered by distance. Every network response is an
    input: `Network` says what each request would resolve to, or that it would throw. */
module Discovery {
  import opened Wrappers
  import opened Text
  import opened Location

  /** One geosearch hit. */
  datatype Hit = Hit(title: string, lat: real, lon: real)

  /** The parts of an article-summary response that are read: `extract` and `thumbnail.source`. */
  datatype Summary = Summary(extract: Option<string>, thumbnail: Option<string>)

  /** The responses the discovery depends on.
      - geosearch: `query.geosearch` of the geosearch response (None when it is missing);
      - summary: the summary response for an article title;
      - pageprops: `wikibase_item` of the first page of the page-properties response for a title;
      - entity: `time` of the first P571 (inception) claim of the entity response for an entity id. */
  datatype Network = Network(
    geosearch: Fetch<Option<seq<Hit>>>,
    summary: string -> Fetch<Summary>,
    pageprops: string -> Fetch<Option<string>>,
    entity: string -> Fetch<Option<string>>)

  /** The distance function (latitude 1, longitude 1, latitude 2, longitude 2), left uninterpreted. */
  type DistanceFn = (real, real, real, real) -> real

  /** One entry of the result list. */
  datatype ScienceLocation = ScienceLocation(
    title: string,
    lat: real,
    lon: real,
    summary: Option<string>,
    image: Option<string>,
    url: string,
    distance: real,
    wikidataInfo: string)

  /** The ways a discovery ends. */
  datatype DiscoveryResult =
    | NoNearby                                  // the geosearch returned no hits
    | NoneRelevant                              // hits, but none passed the keyword test
    | Found(locations: seq<ScienceLocation>)    // the relevant hits, nearest first
    | Failed                                    // a request outside the Wikidata try block threw

  const ScienceKeywords: seq<string> := [
    "science", "physics", "chemistry", "biology", "research", "discovery", "experiment",
    "scientist", "invention", "lab", "laboratory", "technology", "observatory", "genetics",
    "astronomy", "geology", "medicine", "math"
  ]

  const WikipediaArticleBase := "https://en.wikipedia.org/wiki/"

  /** "🕰️ Date of inception: " */
  const InceptionLabel := "\U{1F570}\U{FE0F} Date of inception: "

  /** The text the keyword test reads: the lower-cased extract, or "" when it is missing. */
  function SummaryText(extract: Option<string>): string {
    Lower(extract.GetOr(""))
  }

  /** `keywords.some(k => text.includes(k))`. */
  function AnyKeyword(text: string, keywords: seq<string>): (r: bool)
    ensures r <==> exists j :: 0 <= j < |keywords| && Includes(text, keywords[j])
  {
    if keywords == [] then false
    else
      var rest := AnyKeyword(text, keywords[1..]);
      assert rest ==> exists j :: 0 <= j < |keywords| && Includes(text, keywords[j]) by {
        if rest {
          var j :| 0 <= j < |keywords| - 1 && Includes(text, keywords[1..][j]);
          assert keywords[1..][j] == keywords[j + 1];
        }
      }
      assert (exists j :: 0 <= j < |keywords| && Includes(text, keywords[j])) ==>
               Includes(text, keywords[0]) || rest by {
        if exists j :: 0 <= j < |keywords| && Includes(text, keywords[j]) {
          var j :| 0 <= j < |keywords| && Includes(text, keywords[j]);
          if j > 0 {
            assert keywords[1..][j - 1] == keywords[j];
          }
        }
      }
      Includes(text, keywords[0]) || rest
  }

  /** The relevance test applied to a summary extract. */
  predicate IsScienceRelated(extract: Option<string>)
    ensures IsScienceRelated(extract) <==>
              exists j :: 0 <= j < |ScienceKeywords| && Includes(SummaryText(extract), ScienceKeywords[j])
  {
    AnyKeyword(SummaryText(extract), ScienceKeywords)
  }

  /** A hit is kept exactly when some keyword occurs in its lower-cased extract. */
  lemma RelevantIffKeywordOccurs(extract: Option<string>)
    ensures IsScienceRelated(extract) <==>
              exists k, i :: k in ScienceKeywords && OccursAt(Lower(extract.GetOr("")), k, i)
  {
    var text := Lower(extract.GetOr(""));
    if exists k, i :: k in ScienceKeywords && OccursAt(text, k, i) {
      var k, i :| k in ScienceKeywords && OccursAt(text, k, i);
      var j :| 0 <= j < |ScienceKeywords| && ScienceKeywords[j] == k;
      assert Includes(text, ScienceKeywords[j]);
    }
  }

  /** A missing or empty extract is never relevant. */
  lemma MissingExtractNeverRelevant()
    ensures !IsScienceRelated(None)
    ensures !IsScienceRelated(Some(""))
  {
    assert SummaryText(None) == [] && SummaryText(Some("")) == [];
    forall i | 0 <= i < |ScienceKeywords| ensures !Includes("", ScienceKeywords[i]) {
      EmptyIncludesNothing(ScienceKeywords[i]);
    }
  }

  lemma LowerIdempotent(s: string)
    ensures Lower(Lower(s)) == Lower(s)
  {
  }

  /** The test ignores ASCII case: an extract and its lower-cased form are judged alike. */
  lemma RelevanceIgnoresCase(s: string)
    ensures IsScienceRelated(Some(s)) == IsScienceRelated(Some(Lower(s)))
  {
    LowerIdempotent(s);
  }

  /** An extract whose only keyword is written in capitals is still relevant. */
  lemma PhysicsWingIsRelevant()
    ensures IsScienceRelated(Some("a PHYSICS wing"))
  {
    var s := "a PHYSICS wing";
    var t := SummaryText(Some(s));
    assert t == Lower(s);
    assert t[2] == LowerChar(s[2]) == 'p';
    assert t[3] == LowerChar(s[3]) == 'h';
    assert t[4] == LowerChar(s[4]) == 'y';
    assert t[5] == LowerChar(s[5]) == 's';
    assert t[6] == LowerChar(s[6]) == 'i';
    assert t[7] == LowerChar(s[7]) == 'c';
    assert t[8] == LowerChar(s[8]) == 's';
    assert t[2..9] == "physics";
    assert OccursAt(t, "physics", 2);
    assert ScienceKeywords[1] == "physics";
  }

  /** The Wikidata line for an inception time: the label and characters 1 to 10 of the time
      (`time.substring(1, 11)`), or "" when there is no time or it is empty. */
  function InceptionInfo(time: Option<string>): (info: string)
    ensures info == "" <==> time.None? || time.value == ""
    ensures info != "" ==> InceptionLabel <= info && |info| <= |InceptionLabel| + 10
    ensures info != "" && |time.value| >= 11 ==> info == InceptionLabel + time.value[1..11]
    ensures info != "" && |time.value| < 11 ==> info == InceptionLabel + time.value[1..]
  {
    if time.Some? && time.value != "" then InceptionLabel + JsSubstring(time.value, 1, 11) else ""
  }

  /** A Wikidata time value gives its calendar date. */
  lemma InceptionOfWikidataTime()
    ensures InceptionInfo(Some("+1889-03-31T00:00:00Z")) == InceptionLabel + "1889-03-31"
  {
    assert "+1889-03-31T00:00:00Z"[1..11] == "1889-03-31";
  }

  /** The best-effort Wikidata lookup: fetched only for a non-empty entity id; a throwing entity
      request is caught and leaves the line empty. */
  function WikidataInfo(entityId: Option<string>, entity: string -> Fetch<Option<string>>): (info: string)
    ensures info != "" <==>
              && entityId.Some? && entityId.value != ""
              && entity(entityId.value).Ok?
              && entity(entityId.value).value.Some? && entity(entityId.value).value.value != ""
    ensures info != "" ==> info == InceptionInfo(entity(entityId.value).value)
  {
    if entityId.Some? && entityId.value != "" then
      match entity(entityId.value)
      case Threw => ""
      case Ok(time) => InceptionInfo(time)
    else ""
  }

  /** `x` is the entry built for `hit`: position and title copied, distance from `center`,
      article URL, summary and image from the summary response, and relevant. */
  ghost predicate Describes(x: ScienceLocation, center: Coord, hit: Hit, net: Network, dist: DistanceFn) {
    && x.title == hit.title && x.lat == hit.lat && x.lon == hit.lon
    && x.distance == dist(center.lat, center.lon, hit.lat, hit.lon)
    && x.url == WikipediaArticleBase + EncodeUriComponent(hit.title)
    && net.summary(hit.title) == Ok(Summary(x.summary, x.image))
    && IsScienceRelated(x.summary)
    && net.pageprops(hit.title).Ok?
    && x.wikidataInfo == WikidataInfo(net.pageprops(hit.title).value, net.entity)
  }

  /** What one hit settles to: Threw when its summary or page-properties request throws,
      Ok(None) when it is not relevant (`null`), Ok(Some(entry)) otherwise. */
  function Enrich(center: Coord, hit: Hit, net: Network, dist: DistanceFn): (r: Fetch<Option<ScienceLocation>>)
    ensures r.Threw? <==>
              || net.summary(hit.title).Threw?
              || (IsScienceRelated(net.summary(hit.title).value.extract) && net.pageprops(hit.title).Threw?)
    ensures r == Ok(None) <==>
              net.summary(hit.title).Ok? && !IsScienceRelated(net.summary(hit.title).value.extract)
  {
    var distance := dist(center.lat, center.lon, hit.lat, hit.lon);
    match net.summary(hit.title)
    case Threw => Threw
    case Ok(summary) =>
      if !IsScienceRelated(summary.extract) then Ok(None)
      else
        match net.pageprops(hit.title)
        case Threw => Threw
        case Ok(entityId) =>
          Ok(Some(ScienceLocation(
            hit.title, hit.lat, hit.lon, summary.extract, summary.thumbnail,
            WikipediaArticleBase + EncodeUriComponent(hit.title), distance,
            WikidataInfo(entityId, net.entity))))
  }

  /** A kept entry is the entry built for its hit. */
  lemma EnrichDescribesKept(center: Coord, hit: Hit, net: Network, dist: DistanceFn)
    requires Enrich(center, hit, net, dist).Ok? && Enrich(center, hit, net, dist).value.Some?
    ensures Describes(Enrich(center, hit, net, dist).value.value, center, hit, net, dist)
  {
  }

  /** `pages.map(...)`: what every hit settles to, in geosearch order. */
  function Settled(center: Coord, hits: seq<Hit>, net: Network, dist: DistanceFn): (s: seq<Fetch<Option<ScienceLocation>>>)
    ensures |s| == |hits|
    ensures forall i :: 0 <= i < |hits| ==> s[i] == Enrich(center, hits[i], net, dist)
  {
    seq(|hits|, i requires 0 <= i < |hits| => Enrich(center, hits[i], net, dist))
  }

  /** `Promise.all`: all values in order, or Threw as soon as any one of them threw. */
  function JoinAll<T>(s: seq<Fetch<T>>): (r: Fetch<seq<T>>)
    ensures r.Threw? <==> exists i :: 0 <= i < |s| && s[i].Threw?
    ensures r.Ok? ==> |r.value| == |s| && forall i :: 0 <= i < |s| ==> s[i] == Ok(r.value[i])
  {
    if s == [] then Ok([])
    else
      match JoinAll(s[..|s| - 1])
      case Threw => Threw
      case Ok(vs) =>
        match s[|s| - 1]
        case Threw => Threw
        case Ok(v) => Ok(vs + [v])
  }

  /** `results.filter(r => r !== null)`. */
  function Kept<T(!new)>(results: seq<Option<T>>): (r: seq<T>)
    ensures |r| <= |results|
    ensures forall x :: x in r <==> Some(x) in results
  {
    if results == [] then []
    else
      var last := results[|results| - 1];
      assert results == results[..|results| - 1] + [last];
      Kept(results[..|results| - 1]) + (if last.Some? then [last.value] else [])
  }

  /** The entries of the relevant hits, in geosearch order: a direct definition over the hits. */
  function RelevantEntries(center: Coord, hits: seq<Hit>, net: Network, dist: DistanceFn): (r: seq<ScienceLocation>)
    ensures forall x :: x in r ==>
              exists i :: 0 <= i < |hits| && Enrich(center, hits[i], net, dist) == Ok(Some(x))
  {
    if hits == [] then []
    else
      var init := RelevantEntries(center, hits[..|hits| - 1], net, dist);
      var e := Enrich(center, hits[|hits| - 1], net, dist);
      assert forall x :: x in init ==>
               exists i :: 0 <= i < |hits| && Enrich(center, hits[i], net, dist) == Ok(Some(x)) by {
        forall x | x in init
          ensures exists i :: 0 <= i < |hits| && Enrich(center, hits[i], net, dist) == Ok(Some(x))
        {
          var i :| 0 <= i < |hits| - 1 && Enrich(center, hits[..|hits| - 1][i], net, dist) == Ok(Some(x));
          assert hits[..|hits| - 1][i] == hits[i];
        }
      }
      init + (if e.Ok? && e.value.Some? then [e.value.value] else [])
  }

  /** Filtering the settled values of the hits gives the relevant entries, in geosearch order. */
  lemma {:induction false} KeptIsRelevantEntries(center: Coord, hits: seq<Hit>, net: Network, dist: DistanceFn,
                                                 results: seq<Option<ScienceLocation>>)
    requires |results| == |hits|
    requires forall i :: 0 <= i < |hits| ==> Enrich(center, hits[i], net, dist) == Ok(results[i])
    ensures Kept(results) == RelevantEntries(center, hits, net, dist)
  {
    if hits != [] {
      var n := |hits| - 1;
      forall i | 0 <= i < n ensures Enrich(center, hits[..n][i], net, dist) == Ok(results[..n][i]) {
        assert hits[..n][i] == hits[i];
      }
      KeptIsRelevantEntries(center, hits[..n], net, dist, results[..n]);
    }
  }

  /** Non-decreasing by distance. */
  ghost predicate SortedByDistance(s: seq<ScienceLocation>) {
    forall i, j :: 0 <= i < j < |s| ==> s[i].distance <= s[j].distance
  }

  /** Insertion of `x` after every leading entry that is not farther than it, so that entries of
      equal distance keep their order. */
  function InsertByDistance(s: seq<ScienceLocation>, x: ScienceLocation): (r: seq<ScienceLocation>)
    ensures multiset(r) == multiset(s) + multiset{x}
  {
    if s == [] || x.distance < s[0].distance then [x] + s
    else
      assert s == [s[0]] + s[1..];
      [s[0]] + InsertByDistance(s[1..], x)
  }

  /** Inserting into a sorted list leaves it sorted. */
  lemma {:induction false} InsertKeepsSorted(s: seq<ScienceLocation>, x: ScienceLocation)
    requires SortedByDistance(s)
    ensures SortedByDistance(InsertByDistance(s, x))
  {
    if s != [] && s[0].distance <= x.distance {
      var rest := InsertByDistance(s[1..], x);
      InsertKeepsSorted(s[1..], x);
      InsertKeepsBound(s[1..], x, s[0].distance);
      ConsKeepsSorted(s[0], rest);
      assert InsertByDistance(s, x) == [s[0]] + rest;
    }
  }

  /** An entry no farther than any entry of a sorted list can go in front of it. */
  lemma ConsKeepsSorted(h: ScienceLocation, s: seq<ScienceLocation>)
    requires SortedByDistance(s)
    requires forall k :: 0 <= k < |s| ==> h.distance <= s[k].distance
    ensures SortedByDistance([h] + s)
  {
    var r := [h] + s;
    forall i, j | 0 <= i < j < |r| ensures r[i].distance <= r[j].distance {
      assert r[j] == s[j - 1];
      if i > 0 {
        assert r[i] == s[i - 1];
      }
    }
  }

  /** A lower bound on the distances of a list and of `x` is one on the list after insertion. */
  lemma {:induction false} InsertKeepsBound(s: seq<ScienceLocation>, x: ScienceLocation, d: real)
    requires forall k :: 0 <= k < |s| ==> d <= s[k].distance
    requires d <= x.distance
    ensures forall k :: 0 <= k < |InsertByDistance(s, x)| ==> d <= InsertByDistance(s, x)[k].distance
  {
    if s != [] && s[0].distance <= x.distance {
      InsertKeepsBound(s[1..], x, d);
      assert InsertByDistance(s, x) == [s[0]] + InsertByDistance(s[1..], x);
    }
  }

  /** The stable sort by distance (`sort((a, b) => a.distance - b.distance)`), as insertion sort. */
  function SortByDistance(s: seq<ScienceLocation>): (r: seq<ScienceLocation>)
    ensures SortedByDistance(r)
    ensures multiset(r) == multiset(s)
  {
    if s == [] then []
    else
      assert s == s[..|s| - 1] + [s[|s| - 1]];
      var sorted := SortByDistance(s[..|s| - 1]);
      InsertKeepsSorted(sorted, s[|s| - 1]);
      InsertByDistance(sorted, s[|s| - 1])
  }

  /** The hits of a geosearch response: `query.geosearch || []`. */
  function HitsOf(found: Option<seq<Hit>>): seq<Hit> {
    found.GetOr([])
  }

  /** The titles whose summaries are requested, in order. */
  function Titles(hits: seq<Hit>): (t: seq<string>)
    ensures |t| == |hits| && forall i :: 0 <= i < |hits| ==> t[i] == hits[i].title
  {
    seq(|hits|, i requires 0 <= i < |hits| => hits[i].title)
  }

  /** The discovery as the source composes it: geosearch, map, `Promise.all`, filter, sort. */
  function DiscoveryOutcome(center: Coord, net: Network, dist: DistanceFn): (r: DiscoveryResult)
    ensures r.Found? ==> r.locations != [] && SortedByDistance(r.locations)
  {
    match net.geosearch
    case Threw => Failed
    case Ok(found) =>
      var hits := HitsOf(found);
      if hits == [] then NoNearby
      else
        match JoinAll(Settled(center, hits, net, dist))
        case Threw => Failed
        case Ok(results) =>
          var kept := Kept(results);
          if kept == [] then NoneRelevant else Found(SortByDistance(kept))
  }

  /** The outcome restated over the hits one by one: Failed when some hit threw, otherwise
      decided by the relevant entries in geosearch order. */
  lemma {:induction false} OutcomeByEntries(center: Coord, net: Network, dist: DistanceFn)
    requires net.geosearch.Ok? && HitsOf(net.geosearch.value) != []
    ensures var hits := HitsOf(net.geosearch.value);
            var entries := RelevantEntries(center, hits, net, dist);
            DiscoveryOutcome(center, net, dist) ==
              if exists i :: 0 <= i < |hits| && Enrich(center, hits[i], net, dist).Threw? then Failed
              else if entries == [] then NoneRelevant
              else Found(SortByDistance(entries))
  {
    var hits := HitsOf(net.geosearch.value);
    var joined := JoinAll(Settled(center, hits, net, dist));
    if joined.Ok? {
      KeptIsRelevantEntries(center, hits, net, dist, joined.value);
    }
  }

  /** An empty or missing hit list, and only that, ends in NoNearby. */
  lemma NoNearbyIffNoHits(center: Coord, net: Network, dist: DistanceFn)
    ensures DiscoveryOutcome(center, net, dist) == NoNearby <==>
              net.geosearch.Ok? && HitsOf(net.geosearch.value) == []
  {
    if net.geosearch.Ok? && HitsOf(net.geosearch.value) != [] {
      OutcomeByEntries(center, net, dist);
    }
  }

  /** The discovery fails exactly when the geosearch throws or some hit's summary or
      page-properties request throws; a throwing entity request never makes it fail. */
  lemma FailedIffARequestThrew(center: Coord, net: Network, dist: DistanceFn)
    ensures DiscoveryOutcome(center, net, dist) == Failed <==>
              || net.geosearch.Threw?
              || exists i :: 0 <= i < |HitsOf(net.geosearch.value)|
                   && Enrich(center, HitsOf(net.geosearch.value)[i], net, dist).Threw?
  {
    if net.geosearch.Ok? && HitsOf(net.geosearch.value) != [] {
      OutcomeByEntries(center, net, dist);
    }
  }

  /** NoneRelevant exactly when there are hits, every summary arrived, and none was relevant. */
  lemma NoneRelevantIffNoHitRelevant(center: Coord, net: Network, dist: DistanceFn)
    ensures DiscoveryOutcome(center, net, dist) == NoneRelevant <==>
              && net.geosearch.Ok?
              && HitsOf(net.geosearch.value) != []
              && forall i :: 0 <= i < |HitsOf(net.geosearch.value)| ==>
                   Enrich(center, HitsOf(net.geosearch.value)[i], net, dist) == Ok(None)
  {
    if net.geosearch.Ok? && HitsOf(net.geosearch.value) != [] {
      OutcomeByEntries(center, net, dist);
      NoEntriesIffAllFilteredOut(center, HitsOf(net.geosearch.value), net, dist);
    }
  }

  /** With no hit throwing, there are no relevant entries exactly when every hit settled to null. */
  lemma NoEntriesIffAllFilteredOut(center: Coord, hits: seq<Hit>, net: Network, dist: DistanceFn)
    ensures (!SomeThrew(center, hits, net, dist) && RelevantEntries(center, hits, net, dist) == []) <==>
              forall i :: 0 <= i < |hits| ==> Enrich(center, hits[i], net, dist) == Ok(None)
  {
    var entries := RelevantEntries(center, hits, net, dist);
    if forall i :: 0 <= i < |hits| ==> Enrich(center, hits[i], net, dist) == Ok(None) {
      if entries != [] {
        var i :| 0 <= i < |hits| && Enrich(center, hits[i], net, dist) == Ok(Some(entries[0]));
      }
    } else if !SomeThrew(center, hits, net, dist) {
      var i :| 0 <= i < |hits| && Enrich(center, hits[i], net, dist) != Ok(None);
      RelevantEntriesHasKept(center, hits, net, dist, i);
    }
  }

  /** Every hit whose enrichment keeps it contributes its entry. */
  lemma {:induction false} RelevantEntriesHasKept(center: Coord, hits: seq<Hit>, net: Network, dist: DistanceFn, i: nat)
    requires i < |hits|
    requires Enrich(center, hits[i], net, dist).Ok? && Enrich(center, hits[i], net, dist).value.Some?
    ensures Enrich(center, hits[i], net, dist).value.value in RelevantEntries(center, hits, net, dist)
  {
    var n := |hits| - 1;
    var init := RelevantEntries(center, hits[..n], net, dist);
    var e := Enrich(center, hits[n], net, dist);
    var tail := if e.Ok? && e.value.Some? then [e.value.value] else [];
    assert RelevantEntries(center, hits, net, dist) == init + tail;
    if i < n {
      assert hits[..n][i] == hits[i];
      RelevantEntriesHasKept(center, hits[..n], net, dist, i);
      assert Enrich(center, hits[i], net, dist).value.value in init;
    } else {
      assert i == n;
      assert tail == [e.value.value];
    }
  }

  /** A successful discovery lists the relevant hits' entries, nearest first: non-empty,
      sorted by distance, a permutation of the entries in geosearch order, and each entry
      built from one of the hits. */
  lemma FoundIsSortedPermutationOfRelevant(center: Coord, net: Network, dist: DistanceFn)
    requires DiscoveryOutcome(center, net, dist).Found?
    ensures var locations := DiscoveryOutcome(center, net, dist).locations;
            var hits := HitsOf(net.geosearch.value);
            && locations != []
            && SortedByDistance(locations)
            && multiset(locations) == multiset(RelevantEntries(center, hits, net, dist))
            && forall x :: x in locations ==>
                 exists i :: 0 <= i < |hits| && Describes(x, center, hits[i], net, dist)
  {
    var hits := HitsOf(net.geosearch.value);
    OutcomeByEntries(center, net, dist);
    var entries := RelevantEntries(center, hits, net, dist);
    var locations := DiscoveryOutcome(center, net, dist).locations;
    assert locations == SortByDistance(entries);
    forall x | x in locations
      ensures exists i :: 0 <= i < |hits| && Describes(x, center, hits[i], net, dist)
    {
      assert x in multiset(locations);
      assert x in entries;
      var i :| 0 <= i < |hits| && Enrich(center, hits[i], net, dist) == Ok(Some(x));
      EnrichDescribesKept(center, hits[i], net, dist);
    }
  }

  /** One more hit extends the relevant entries by its own entry, if it has one. */
  lemma EntriesStep(center: Coord, hits: seq<Hit>, net: Network, dist: DistanceFn, i: nat)
    requires i < |hits|
    ensures var e := Enrich(center, hits[i], net, dist);
            RelevantEntries(center, hits[..i + 1], net, dist) ==
              RelevantEntries(center, hits[..i], net, dist) + (if e.Ok? && e.value.Some? then [e.value.value] else [])
  {
    assert hits[..i + 1][..i] == hits[..i];
  }

  /** Some hit's summary or page-properties request throws. */
  ghost predicate SomeThrew(center: Coord, hits: seq<Hit>, net: Network, dist: DistanceFn) {
    exists j :: 0 <= j < |hits| && Enrich(center, hits[j], net, dist).Threw?
  }

  /** One more hit rejects the batch when it throws itself. */
  lemma ThrewStep(center: Coord, hits: seq<Hit>, net: Network, dist: DistanceFn, i: nat)
    requires i < |hits|
    ensures SomeThrew(center, hits[..i + 1], net, dist) <==>
              SomeThrew(center, hits[..i], net, dist) || Enrich(center, hits[i], net, dist).Threw?
  {
    var threw := h => Enrich(center, h, net, dist).Threw?;
    ExistsStep(hits, i, threw);
    assert SomeThrew(center, hits[..i + 1], net, dist) == Somewhere(hits[..i + 1], threw);
    assert SomeThrew(center, hits[..i], net, dist) == Somewhere(hits[..i], threw);
  }

  /** `p` holds for some element of `t`. */
  ghost predicate Somewhere<T>(t: seq<T>, p: T -> bool) {
    exists j :: 0 <= j < |t| && p(t[j])
  }

  /** A property holds somewhere in the first `i + 1` elements exactly when it holds in the
      first `i` or at index `i`. */
  lemma ExistsStep<T>(s: seq<T>, i: nat, p: T -> bool)
    requires i < |s|
    ensures Somewhere(s[..i + 1], p) <==> Somewhere(s[..i], p) || p(s[i])
  {
    var long, short := s[..i + 1], s[..i];
    if p(s[i]) {
      assert long[i] == s[i];
    }
    if Somewhere(short, p) {
      var j :| 0 <= j < |short| && p(short[j]);
      assert long[j] == short[j];
    }
    if Somewhere(long, p) {
      var j :| 0 <= j < |long| && p(long[j]);
      if j < i {
        assert long[j] == short[j];
      }
    }
  }

  /** `Promise.all(pages.map(...))` followed by the filter, run hit by hit: every hit's summary
      is requested up front (the `map` starts every request before any of them settles), a
      throw rejects the batch, and null results are skipped. */
  method EnrichEach(center: Coord, hits: seq<Hit>, net: Network, dist: DistanceFn)
    returns (rejected: bool, kept: seq<ScienceLocation>, summaryRequests: seq<string>)
    ensures rejected == SomeThrew(center, hits, net, dist)
    ensures kept == RelevantEntries(center, hits, net, dist)
    ensures summaryRequests == Titles(hits)
  {
    summaryRequests := Titles(hits);
    rejected := false;
    kept := [];
    for i := 0 to |hits|
      invariant rejected == SomeThrew(center, hits[..i], net, dist)
      invariant kept == RelevantEntries(center, hits[..i], net, dist)
    {
      var r := Enrich(center, hits[i], net, dist);
      EntriesStep(center, hits, net, dist, i);
      ThrewStep(center, hits, net, dist, i);
      if r.Threw? {
        rejected := true;
      } else if r.value.Some? {
        kept := kept + [r.value.value];
      }
    }
    assert hits[..|hits|] == hits;
  }

  /** The discovery as it runs: the geosearch, the per-hit loop, then the outcome and the sort.
      `summaryRequests` lists the titles whose summaries were requested. */
  method Discover(center: Coord, net: Network, dist: DistanceFn)
    returns (result: DiscoveryResult, summaryRequests: seq<string>)
    ensures result == DiscoveryOutcome(center, net, dist)
    ensures net.geosearch.Ok? ==> summaryRequests == Titles(HitsOf(net.geosearch.value))
    ensures net.geosearch.Threw? ==> summaryRequests == []
  {
    if net.geosearch.Threw? {
      return Failed, [];
    }
    var hits := HitsOf(net.geosearch.value);
    if hits == [] {
      return NoNearby, [];
    }
    var rejected, kept;
    rejected, kept, summaryRequests := EnrichEach(center, hits, net, dist);
    OutcomeByEntries(center, net, dist);
    if rejected {
      result := Failed;
    } else if kept == [] {
      result := NoneRelevant;
    } else {
      result := Found(SortByDistance(kept));
    }
  }
}
