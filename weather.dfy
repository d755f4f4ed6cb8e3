/** Weather for a new entry (js/weather.js): the WMO weather code's label, the
    label's icon, and the record `fetchWeatherForCity` assembles from the
    geocoding and forecast answers and keeps as the last fetched weather. */
module Weather {
  import opened Wrappers
  import opened Text

  // ---------------------------------------------------------------------------
  // Labels and icons
  // ---------------------------------------------------------------------------

  const WeatherTypes: set<string> :=
    {"Clear sky", "Clouds", "Fog", "Drizzle", "Rain", "Snow", "Thunderstorm", "Unknown"}

  const SunIcon: string := "\U{2600}\U{FE0F}"
  const CloudIcon: string := "\U{26C5}"
  const RainIcon: string := "\U{1F327}\U{FE0F}"
  const SnowIcon: string := "\U{2744}\U{FE0F}"
  const StormIcon: string := "\U{26C8}\U{FE0F}"
  const FogIcon: string := "\U{1F32B}\U{FE0F}"

  const Icons: set<string> := {SunIcon, CloudIcon, RainIcon, SnowIcon, StormIcon, FogIcon}

  /** `mapWeatherCodeToType(code)`: the first matching range wins. */
  function MapWeatherCodeToType(code: int): (r: string)
    ensures r in WeatherTypes
  {
    if code == 0 then "Clear sky"
    else if code == 1 || code == 2 || code == 3 then "Clouds"
    else if code == 45 || code == 48 then "Fog"
    else if 51 <= code <= 57 then "Drizzle"
    else if (61 <= code <= 67) || (80 <= code <= 82) then "Rain"
    else if 71 <= code <= 77 then "Snow"
    else if code >= 95 then "Thunderstorm"
    else "Unknown"
  }

  /** Each label stands for exactly its range of codes. */
  lemma WeatherCodeRanges(code: int)
    ensures MapWeatherCodeToType(code) == "Clear sky" <==> code == 0
    ensures MapWeatherCodeToType(code) == "Clouds" <==> 1 <= code <= 3
    ensures MapWeatherCodeToType(code) == "Fog" <==> code == 45 || code == 48
    ensures MapWeatherCodeToType(code) == "Drizzle" <==> 51 <= code <= 57
    ensures MapWeatherCodeToType(code) == "Rain" <==> 61 <= code <= 67 || 80 <= code <= 82
    ensures MapWeatherCodeToType(code) == "Snow" <==> 71 <= code <= 77
    ensures MapWeatherCodeToType(code) == "Thunderstorm" <==> code >= 95
    ensures MapWeatherCodeToType(code) == "Unknown" <==>
              !(0 <= code <= 3 || code == 45 || code == 48 || 51 <= code <= 57
                || 61 <= code <= 67 || 80 <= code <= 82 || 71 <= code <= 77 || code >= 95)
  {
  }

  /** `iconForType(type)`: the lower-cased label (`''` for a missing one) is
      searched for `clear`, `cloud`, `rain` or `drizzle`, `snow`, `thunder`
      and `fog`, in that order; nothing found gives the cloud. */
  function IconForType(weatherType: Option<string>): (r: string)
    ensures r in Icons
  {
    var value := match weatherType case None => "" case Some(t) => Lower(t);
    if Contains(value, "clear") then SunIcon
    else if Contains(value, "cloud") then CloudIcon
    else if Contains(value, "rain") || Contains(value, "drizzle") then RainIcon
    else if Contains(value, "snow") then SnowIcon
    else if Contains(value, "thunder") then StormIcon
    else if Contains(value, "fog") then FogIcon
    else CloudIcon
  }

  /** The icon each label of MapWeatherCodeToType is meant to get. */
  function ExpectedIcon(weatherType: string): string
  {
    if weatherType == "Clear sky" then SunIcon
    else if weatherType == "Drizzle" || weatherType == "Rain" then RainIcon
    else if weatherType == "Snow" then SnowIcon
    else if weatherType == "Thunderstorm" then StormIcon
    else if weatherType == "Fog" then FogIcon
    else CloudIcon
  }

  /** The icon of a weather code's label, as `fetchWeatherForCity` computes
      it: sun, cloud, rain, snow, storm or fog by label, and the cloud for
      "Unknown". */
  lemma IconOfWeatherCode(code: int)
    ensures IconForType(Some(MapWeatherCodeToType(code))) == ExpectedIcon(MapWeatherCodeToType(code))
  {
    var wt := MapWeatherCodeToType(code);
    if wt == "Clear sky" {
      IconOfClearSky();
    } else if wt == "Clouds" {
      IconOfClouds();
    } else if wt == "Drizzle" {
      IconOfDrizzle();
    } else if wt == "Rain" {
      IconOfRain();
    } else if wt == "Snow" {
      IconOfSnow();
    } else if wt == "Thunderstorm" {
      IconOfThunderstorm();
    } else if wt == "Fog" {
      IconOfFog();
    } else {
      IconOfUnknown();
    }
  }

  lemma IconOfClearSky()
    ensures IconForType(Some("Clear sky")) == SunIcon
  {
    assert Lower("Clear sky") == "clear sky";
    ContainsPrefix("clear sky", "clear");
  }

  lemma IconOfClouds()
    ensures IconForType(Some("Clouds")) == CloudIcon
  {
    var v := "clouds";
    assert Lower("Clouds") == v;
    NotContainsMissingChar(v, "clear", 'e');
    ContainsPrefix(v, "cloud");
  }

  lemma IconOfDrizzle()
    ensures IconForType(Some("Drizzle")) == RainIcon
  {
    var v := "drizzle";
    assert Lower("Drizzle") == v;
    NotContainsMissingChar(v, "clear", 'c');
    NotContainsMissingChar(v, "cloud", 'c');
    ContainsPrefix(v, "drizzle");
  }

  lemma IconOfRain()
    ensures IconForType(Some("Rain")) == RainIcon
  {
    var v := "rain";
    assert Lower("Rain") == v;
    NotContainsMissingChar(v, "clear", 'c');
    NotContainsMissingChar(v, "cloud", 'c');
    ContainsPrefix(v, "rain");
  }

  lemma IconOfSnow()
    ensures IconForType(Some("Snow")) == SnowIcon
  {
    var v := "snow";
    assert Lower("Snow") == v;
    NotContainsMissingChar(v, "clear", 'c');
    NotContainsMissingChar(v, "cloud", 'c');
    NotContainsMissingChar(v, "rain", 'a');
    NotContainsMissingChar(v, "drizzle", 'd');
    ContainsPrefix(v, "snow");
  }

  lemma IconOfThunderstorm()
    ensures IconForType(Some("Thunderstorm")) == StormIcon
  {
    var v := "thunderstorm";
    assert Lower("Thunderstorm") == v;
    NotContainsMissingChar(v, "clear", 'c');
    NotContainsMissingChar(v, "cloud", 'c');
    NotContainsMissingChar(v, "rain", 'a');
    NotContainsMissingChar(v, "drizzle", 'z');
    NotContainsMissingChar(v, "snow", 'w');
    ContainsPrefix(v, "thunder");
  }

  lemma IconOfFog()
    ensures IconForType(Some("Fog")) == FogIcon
  {
    var v := "fog";
    assert Lower("Fog") == v;
    NotContainsMissingChar(v, "clear", 'c');
    NotContainsMissingChar(v, "cloud", 'c');
    NotContainsMissingChar(v, "rain", 'a');
    NotContainsMissingChar(v, "drizzle", 'd');
    NotContainsMissingChar(v, "snow", 's');
    NotContainsMissingChar(v, "thunder", 't');
    ContainsPrefix(v, "fog");
  }

  lemma IconOfUnknown()
    ensures IconForType(Some("Unknown")) == CloudIcon
  {
    var v := "unknown";
    assert Lower("Unknown") == v;
    NotContainsMissingChar(v, "clear", 'c');
    NotContainsMissingChar(v, "cloud", 'c');
    NotContainsMissingChar(v, "rain", 'a');
    NotContainsMissingChar(v, "drizzle", 'd');
    NotContainsMissingChar(v, "snow", 's');
    NotContainsMissingChar(v, "thunder", 't');
    NotContainsMissingChar(v, "fog", 'f');
  }

  // ---------------------------------------------------------------------------
  // The weather record
  // ---------------------------------------------------------------------------

  /** `${t}°C` for the rounded temperature `t`. */
  function TemperatureText(t: int): (r: string)
    ensures |r| >= 3 && r[|r| - 2..] == "\U{B0}C"
    ensures r[..|r| - 2] == IntToString(t)
  {
    IntToString(t) + "\U{B0}C"
  }

  /** Different temperatures never read alike. */
  lemma TemperatureTextInjective(a: int, b: int)
    requires TemperatureText(a) == TemperatureText(b)
    ensures a == b
  {
    assert IntToString(a) == TemperatureText(a)[..|TemperatureText(a)| - 2] == IntToString(b);
    IntToStringInjective(a, b);
  }

  /** The first geocoding result: its `name` and `country`, the empty string
      standing for a missing one. Coordinates only feed the forecast lookup,
      which is an oracle here. */
  datatype Place = Place(name: string, country: string)

  /** The geocoding lookup: a failed response, or the `results` list (empty
      when the answer has none). */
  datatype GeoResponse = GeoFailed | GeoOk(results: seq<Place>)

  /** The forecast's `current` block. The temperature is already rounded
      (`Math.round`); humidity and wind speed are `None` when they are not
      numbers. */
  datatype Current = Current(weatherCode: int, temperature: int, humidity: Option<real>, windSpeed: Option<real>)

  /** The forecast lookup: a failed response, or the answer with or without a
      `current` block. */
  datatype ForecastResponse = ForecastFailed | ForecastOk(current: Option<Current>)

  /** `lastWeather`: what a successful fetch hands to the entry form. */
  datatype WeatherRecord = WeatherRecord(
    icon: string,
    temperature: string,
    weatherType: string,
    humidity: Option<real>,
    windSpeed: Option<real>,
    locationName: string)

  /** A record with an icon, a temperature, a label and a location name,
      none of them empty. */
  predicate Filled(w: WeatherRecord)
  {
    w.icon != "" && w.temperature != "" && w.weatherType != "" && w.locationName != ""
  }

  /** `"name, country"` when both are there, else the name, else the trimmed
      city the user typed. */
  function LocationName(place: Place, trimmed: string): (r: string)
    ensures place.name != "" && place.country != "" ==> r == place.name + ", " + place.country
    ensures place.name != "" && place.country == "" ==> r == place.name
    ensures place.name == "" ==> r == trimmed
  {
    if place.name != "" && place.country != "" then place.name + ", " + place.country
    else if place.name != "" then place.name
    else trimmed
  }

  /** A location name always starts with the place's name, and is never empty
      for a non-empty city. */
  lemma LocationNameShape(place: Place, trimmed: string)
    ensures |place.name| <= |LocationName(place, trimmed)|
    ensures LocationName(place, trimmed)[..|place.name|] == place.name
    ensures trimmed != "" ==> LocationName(place, trimmed) != ""
  {
  }

  /** The record built from a place and a `current` block. */
  function Assemble(place: Place, current: Current, trimmed: string): (w: WeatherRecord)
    ensures w.weatherType == MapWeatherCodeToType(current.weatherCode)
    ensures w.icon == IconForType(Some(w.weatherType))
    ensures w.temperature == TemperatureText(current.temperature)
    ensures w.humidity == current.humidity && w.windSpeed == current.windSpeed
    ensures w.locationName == LocationName(place, trimmed)
  {
    var weatherType := MapWeatherCodeToType(current.weatherCode);
    WeatherRecord(IconForType(Some(weatherType)), TemperatureText(current.temperature), weatherType,
                  current.humidity, current.windSpeed, LocationName(place, trimmed))
  }

  /** `fetchWeatherForCity(cityName)` with the two lookups as oracles: the
      geocoder is asked for the trimmed name, the forecast for the first
      place found. Each way of failing throws its own message. */
  function FetchWeatherForCity(cityName: string, geocode: string -> GeoResponse,
                               forecast: Place -> ForecastResponse): (r: Result<WeatherRecord, string>)
    ensures Trim(cityName) == "" ==> r == Failure("City name is required")
    ensures Trim(cityName) != "" && geocode(Trim(cityName)).GeoFailed? ==>
              r == Failure("Could not look up that location")
    ensures Trim(cityName) != "" && geocode(Trim(cityName)) == GeoOk([]) ==>
              r == Failure("No matching location found")
    ensures Trim(cityName) != "" && geocode(Trim(cityName)).GeoOk? && geocode(Trim(cityName)).results != [] ==>
              var place := geocode(Trim(cityName)).results[0];
              && (forecast(place).ForecastFailed? ==> r == Failure("Failed to fetch weather"))
              && (forecast(place) == ForecastOk(None) ==> r == Failure("No current weather data available"))
              && (forecast(place).ForecastOk? && forecast(place).current.Some? ==>
                    r == Success(Assemble(place, forecast(place).current.value, Trim(cityName))))
    ensures r.Success? ==>
              && Trim(cityName) != ""
              && geocode(Trim(cityName)).GeoOk? && geocode(Trim(cityName)).results != []
              && var place := geocode(Trim(cityName)).results[0];
                 forecast(place).ForecastOk? && forecast(place).current.Some?
    ensures r.Success? ==> r.value.weatherType in WeatherTypes && r.value.icon in Icons
                           && Filled(r.value)
  {
    var trimmed := Trim(cityName);
    if trimmed == "" then Failure("City name is required")
    else
      match geocode(trimmed)
      case GeoFailed => Failure("Could not look up that location")
      case GeoOk(results) =>
        if results == [] then Failure("No matching location found")
        else
          var place := results[0];
          match forecast(place)
          case ForecastFailed => Failure("Failed to fetch weather")
          case ForecastOk(None) => Failure("No current weather data available")
          case ForecastOk(Some(current)) =>
            LocationNameShape(place, trimmed);
            Success(Assemble(place, current, trimmed))
  }

  /** A blank city is refused before either lookup: the answer does not
      depend on what the geocoder or the forecast would have said. */
  lemma BlankCityNeedsNoLookup(cityName: string, geocode: string -> GeoResponse, forecast: Place -> ForecastResponse,
                               geocode': string -> GeoResponse, forecast': Place -> ForecastResponse)
    requires Trim(cityName) == ""
    ensures FetchWeatherForCity(cityName, geocode, forecast) == FetchWeatherForCity(cityName, geocode', forecast')
    ensures FetchWeatherForCity(cityName, geocode, forecast).Failure?
  {
  }

  /** The forecast is only consulted for the first place the geocoder
      returns: two forecasts that agree there give the same answer. */
  lemma ForecastOnlyForFirstPlace(cityName: string, geocode: string -> GeoResponse,
                                  forecast: Place -> ForecastResponse, forecast': Place -> ForecastResponse)
    requires var g := geocode(Trim(cityName));
             g.GeoOk? && g.results != [] ==> forecast(g.results[0]) == forecast'(g.results[0])
    ensures FetchWeatherForCity(cityName, geocode, forecast) == FetchWeatherForCity(cityName, geocode, forecast')
  {
    var trimmed := Trim(cityName);
    if trimmed != "" && geocode(trimmed).GeoOk? && geocode(trimmed).results != [] {
      var place := geocode(trimmed).results[0];
      assert forecast(place) == forecast'(place);
    }
  }

  /** The module's `lastWeather` slot. */
  class WeatherBox {
    var lastWeather: Option<WeatherRecord>

    /** Only a successful fetch fills the slot, so what it holds is a
        complete record with a known label and icon. */
    ghost predicate Valid()
      reads this
    {
      lastWeather.Some? ==>
        lastWeather.value.weatherType in WeatherTypes && lastWeather.value.icon in Icons
        && Filled(lastWeather.value)
    }

    constructor ()
      ensures Valid() && lastWeather == None
    {
      lastWeather := None;
    }

    /** A fetch: on success the record becomes the last fetched weather and
        is returned; on failure the error is returned and the slot keeps what
        it held. */
    method Fetch(cityName: string, geocode: string -> GeoResponse, forecast: Place -> ForecastResponse)
      returns (r: Result<WeatherRecord, string>)
      requires Valid()
      modifies this
      ensures Valid()
      ensures r == FetchWeatherForCity(cityName, geocode, forecast)
      ensures r.Success? ==> lastWeather == Some(r.value)
      ensures r.Failure? ==> lastWeather == old(lastWeather)
    {
      r := FetchWeatherForCity(cityName, geocode, forecast);
      if r.Success? {
        lastWeather := Some(r.value);
      }
    }

    /** `getLastFetchedWeather()`: nothing before the first successful
        fetch, and afterwards a complete record. */
    function LastFetchedWeather(): (r: Option<WeatherRecord>)
      reads this
      requires Valid()
      ensures r.Some? ==> r.value.weatherType in WeatherTypes && r.value.icon in Icons && Filled(r.value)
    {
      lastWeather
    }
  }
}
