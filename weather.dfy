/** The weather card: WMO weather interpretation codes (WMO code table 4677, as used by
    Open-Meteo) mapped to an icon and a description, and the card's loading/empty guard. */
module Weather {
  import opened Wrappers

  /** The icon components the card chooses between. */
  datatype Icon = Sun | Cloud | CloudFog | CloudDrizzle | CloudRain | CloudSnow | CloudLightning

  /** The fifteen labels the description can take. */
  const Descriptions: set<string> := {
    "Clear sky", "Mainly clear", "Partly cloudy", "Overcast", "Fog",
    "Drizzle", "Freezing Drizzle", "Rain", "Freezing Rain", "Snow fall",
    "Snow grains", "Rain showers", "Snow showers", "Thunderstorm", "Unknown"
  }

  /** The codes the description table covers: {0..3} and the bands 45-49, 51-59, 61-69, 71-86,
      95-99. Code 60 falls between the drizzle and rain bands and is not covered. */
  predicate InDescriptionTable(code: int) {
    0 <= code <= 3 || 45 <= code <= 49 || 51 <= code <= 59 || 61 <= code <= 69 || 71 <= code <= 86
    || 95 <= code <= 99
  }

  /** Icon for a code; the first matching band wins and anything else is a plain cloud. */
  function WeatherIcon(code: int): (icon: Icon)
    ensures icon == Sun <==> code == 0
    ensures icon == CloudFog <==> 45 <= code <= 49
    ensures icon == CloudDrizzle <==> 51 <= code <= 59 || 80 <= code <= 82
    ensures icon == CloudRain <==> 61 <= code <= 69 || 83 <= code <= 84
    ensures icon == CloudSnow <==> 71 <= code <= 79 || 85 <= code <= 86
    ensures icon == CloudLightning <==> 95 <= code <= 99
    ensures icon == Cloud <==> (1 <= code <= 3 || code < 0 || 4 <= code <= 44 || code == 50
                                || code == 60 || code == 70 || 87 <= code <= 94 || code >= 100)
  {
    if code == 0 then Sun
    else if 1 <= code <= 3 then Cloud
    else if 45 <= code <= 49 then CloudFog
    else if (51 <= code <= 59) || (80 <= code <= 82) then CloudDrizzle
    else if (61 <= code <= 69) || (83 <= code <= 84) then CloudRain
    else if 71 <= code <= 79 then CloudSnow
    else if 85 <= code <= 86 then CloudSnow
    else if 95 <= code <= 99 then CloudLightning
    else Cloud
  }

  /** Description for a code; total, first matching band wins. */
  function WeatherDescription(code: int): (d: string)
    ensures d in Descriptions
    ensures d == "Unknown" <==> !InDescriptionTable(code)
    ensures code == 0 ==> d == "Clear sky"
    ensures code == 1 ==> d == "Mainly clear"
    ensures code == 2 ==> d == "Partly cloudy"
    ensures code == 3 ==> d == "Overcast"
    ensures d == "Fog" <==> 45 <= code <= 49
    ensures d == "Drizzle" <==> 51 <= code <= 55
    ensures d == "Freezing Drizzle" <==> 56 <= code <= 59
    ensures d == "Rain" <==> 61 <= code <= 65
    ensures d == "Freezing Rain" <==> 66 <= code <= 69
    ensures d == "Snow fall" <==> 71 <= code <= 75
    ensures d == "Snow grains" <==> 76 <= code <= 79
    ensures d == "Rain showers" <==> 80 <= code <= 84
    ensures d == "Snow showers" <==> 85 <= code <= 86
    ensures d == "Thunderstorm" <==> 95 <= code <= 99
  {
    if code == 0 then "Clear sky"
    else if code == 1 then "Mainly clear"
    else if code == 2 then "Partly cloudy"
    else if code == 3 then "Overcast"
    else if 45 <= code <= 49 then "Fog"
    else if 51 <= code <= 55 then "Drizzle"
    else if 56 <= code <= 59 then "Freezing Drizzle"
    else if 61 <= code <= 65 then "Rain"
    else if 66 <= code <= 69 then "Freezing Rain"
    else if 71 <= code <= 75 then "Snow fall"
    else if 76 <= code <= 79 then "Snow grains"
    else if 80 <= code <= 84 then "Rain showers"
    else if 85 <= code <= 86 then "Snow showers"
    else if 95 <= code <= 99 then "Thunderstorm"
    else "Unknown"
  }

  /** Every code described as some kind of snow is drawn with the snow icon. */
  lemma SnowDescriptionsHaveSnowIcon(code: int)
    requires WeatherDescription(code) in {"Snow fall", "Snow grains", "Snow showers"}
    ensures WeatherIcon(code) == CloudSnow
  {
  }

  /** A code is a thunderstorm exactly when it gets the lightning icon. */
  lemma ThunderstormIffLightning(code: int)
    ensures WeatherDescription(code) == "Thunderstorm" <==> WeatherIcon(code) == CloudLightning
  {
  }

  /** A code is fog exactly when it gets the fog icon. */
  lemma FogIffFogIcon(code: int)
    ensures WeatherDescription(code) == "Fog" <==> WeatherIcon(code) == CloudFog
  {
  }

  /** Every code the table leaves unknown is drawn as a plain cloud, never as weather. */
  lemma UnknownCodesGetPlainCloud(code: int)
    requires WeatherDescription(code) == "Unknown"
    ensures WeatherIcon(code) == Cloud
  {
  }

  /** The part of the forecast payload the card's header reads. */
  datatype CurrentWeather = CurrentWeather(weatherCode: int)

  /** What the card renders. */
  datatype CardView = LoadingSkeleton | NoCard | Conditions(icon: Icon, description: string)

  /** The card's guard: loading shows the skeleton whatever the data; otherwise no data renders nothing. */
  function WeatherCardView(isLoading: bool, weatherData: Option<CurrentWeather>): (v: CardView)
    ensures v == LoadingSkeleton <==> isLoading
    ensures v == NoCard <==> !isLoading && weatherData.None?
    ensures v.Conditions? ==>
              && weatherData.Some?
              && v.description in Descriptions
              && v.icon == WeatherIcon(weatherData.value.weatherCode)
              && v.description == WeatherDescription(weatherData.value.weatherCode)
  {
    if isLoading then LoadingSkeleton
    else if weatherData.None? then NoCard
    else Conditions(WeatherIcon(weatherData.value.weatherCode), WeatherDescription(weatherData.value.weatherCode))
  }
}
