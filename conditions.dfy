/**
 * `wunderground::Conditions` (src/wunderground/conditions.cpp): the current
 * observation and four forecast slots filled from a Weather Underground
 * reply.  ArduinoJson's field access is not part of this model: the fields
 * read from the JSON document arrive as values (`ObservationFields`, the
 * forecast days in array order).  Temperatures are kept as `real` and never
 * computed with.
 */
module WundergroundConditions {
  import opened Arduino

  const MaxForecasts: nat := 4

  datatype Forecast = Forecast(title: string, icon: string, lowTemperature: real, highTemperature: real)

  datatype Observation = Observation(temperature: real, city: string, icon: string, title: string)

  /** The fields `parseCurrentObservation` reads: city, `temp_c`, `weather`, `icon` and `icon_url`. */
  datatype ObservationFields = ObservationFields(city: string, temperature: real, title: string, icon: string, iconUrl: string)

  /**
   * The icon name in `parseCurrentObservation`: the text between the last
   * `'/'` of the icon URL and the first `'.'` after it, which tells night
   * icons (`nt_` prefix) from day ones; a URL without either keeps the
   * `icon` field.
   */
  function IconName(icon: string, iconUrl: string): string
  {
    var slash := LastIndexOf(iconUrl, '/');
    if slash > -1 && slash < |iconUrl| then
      var dot := IndexOfFrom(iconUrl, ".", slash);
      if dot > -1 then Substring(iconUrl, slash + 1, dot) else icon
    else icon
  }

  /**
   * With a last `'/'` at `slash` and a first `'.'` after it at `dot`, the
   * icon name is the text strictly between them.
   */
  lemma IconNameBetween(icon: string, iconUrl: string, slash: nat, dot: nat)
    requires slash < dot < |iconUrl| && iconUrl[slash] == '/' && iconUrl[dot] == '.'
    requires forall j :: slash < j < |iconUrl| ==> iconUrl[j] != '/'
    requires forall j :: slash < j < dot ==> iconUrl[j] != '.'
    ensures IconName(icon, iconUrl) == iconUrl[slash + 1..dot]
  {
    LastIndexOfAt(iconUrl, '/', slash);
    assert NoChar(iconUrl[slash..dot], '.') by {
      forall k | 0 <= k < dot - slash
        ensures iconUrl[slash..dot][k] != '.'
      {
        assert iconUrl[slash..dot][k] == iconUrl[slash + k];
      }
    }
    IndexOfCharAt(iconUrl, '.', slash, dot);
    SubstringInRange(iconUrl, slash + 1, dot);
  }

  /** With no `'.'` after the last `'/'`, the `icon` field is kept. */
  lemma IconNameFallback(icon: string, iconUrl: string, slash: nat)
    requires slash < |iconUrl| && iconUrl[slash] == '/'
    requires forall j :: slash < j < |iconUrl| ==> iconUrl[j] != '/' && iconUrl[j] != '.'
    ensures IconName(icon, iconUrl) == icon
  {
    LastIndexOfAt(iconUrl, '/', slash);
    IndexOfCharFrom(iconUrl, '.', slash);
  }

  /** A URL without `'/'` keeps the `icon` field. */
  lemma IconNameWithoutSlash(icon: string, iconUrl: string)
    requires NoChar(iconUrl, '/')
    ensures IconName(icon, iconUrl) == icon
  {
  }

  /** An icon URL `.../name.ext` yields `name` when the name has no `'/'` or `'.'` and the extension no `'/'`. */
  lemma IconNameOfUrl(icon: string, prefix: string, name: string, ext: string)
    requires NoChar(name, '/') && NoChar(name, '.') && NoChar(ext, '/')
    ensures IconName(icon, prefix + "/" + name + "." + ext) == name
  {
    var url := prefix + "/" + name + "." + ext;
    var slash := |prefix|;
    var dot := |prefix| + 1 + |name|;
    assert url[slash] == '/';
    forall k | slash < k < |url|
      ensures url[k] != '/'
    {
      if k < dot {
        assert url[k] == name[k - slash - 1];
      } else if k > dot {
        assert url[k] == ext[k - dot - 1];
      }
    }
    assert url[dot] == '.';
    forall k | slash < k < dot
      ensures url[k] != '.'
    {
      assert url[k] == name[k - slash - 1];
    }
    IconNameBetween(icon, url, slash, dot);
    assert url[slash + 1..dot] == name;
  }

  /** The last occurrence of `c` is where `lastIndexOf` finds it. */
  lemma LastIndexOfAt(s: string, c: char, k: nat)
    requires k < |s| && s[k] == c && forall j :: k < j < |s| ==> s[j] != c
    ensures LastIndexOf(s, c) == k
  {
    var r := LastIndexOf(s, c);
    assert r != -1 ==> r <= k;
  }

  /**
   * `Conditions`: the last observation and the forecast slots, which the
   * reply's days overwrite in order.
   */
  class Conditions {
    var observation: Observation
    const forecasts: array<Forecast>

    ghost predicate Valid()
      reads this
    {
      forecasts.Length == MaxForecasts
    }

    constructor ()
      ensures Valid() && fresh(forecasts)
    {
      observation := Observation(0.0, "", "", "");
      forecasts := new Forecast[MaxForecasts](_ => Forecast("", "", 0.0, 0.0));
    }

    /** `getCurrentObservation(observation)`: a copy of the stored observation. */
    method GetCurrentObservation() returns (o: Observation)
      ensures o == observation
    {
      o := observation;
    }

    /**
     * `getForecastForPeriod(period, forecast)`: slot `period` below 4, and
     * `forecast` as it was otherwise.
     */
    method GetForecastForPeriod(period: int, forecast: Forecast) returns (f: Forecast)
      requires Valid() && 0 <= period
      ensures period < MaxForecasts ==> f == forecasts[period]
      ensures period >= MaxForecasts ==> f == forecast
    {
      f := forecast;
      if period < MaxForecasts {
        f := forecasts[period];
      }
    }

    /** `parseCurrentObservation(root)`: the fields, with the icon taken from the URL when it has one. */
    method ParseCurrentObservation(fields: ObservationFields)
      modifies this`observation
      ensures observation == Observation(fields.temperature, fields.city, IconName(fields.icon, fields.iconUrl), fields.title)
    {
      var o := Observation(fields.temperature, fields.city, fields.icon, fields.title);
      var slash := LastIndexOf(fields.iconUrl, '/');
      if slash > -1 && slash < |fields.iconUrl| {
        var dot := IndexOfFrom(fields.iconUrl, ".", slash);
        if dot > -1 {
          o := o.(icon := Substring(fields.iconUrl, slash + 1, dot));
        }
      }
      observation := o;
    }

    /**
     * `parseForecast(forecast)`: day k goes to slot k, for at most 4 days;
     * slots beyond the days received keep what they held.
     */
    method ParseForecast(days: seq<Forecast>)
      requires Valid()
      modifies forecasts
      ensures var n := if |days| < MaxForecasts then |days| else MaxForecasts;
        forecasts[..] == days[..n] + old(forecasts[..])[n..]
    {
      var index := 0;
      var it := 0;
      while it < |days|
        invariant 0 <= it <= |days| && index == it && index <= MaxForecasts
        invariant forecasts[..] == days[..index] + old(forecasts[..])[index..]
        invariant it < |days| ==> index < MaxForecasts
        decreases |days| - it
      {
        forecasts[index] := days[it];
        index := index + 1;
        assert forecasts[..] == days[..index] + old(forecasts[..])[index..];
        if index > MaxForecasts - 1 {
          break;
        }
        it := it + 1;
      }
    }

    /** `parse(root)`: the current observation, then the forecast. */
    method Parse(fields: ObservationFields, days: seq<Forecast>)
      requires Valid()
      modifies this`observation, forecasts
      ensures observation == Observation(fields.temperature, fields.city, IconName(fields.icon, fields.iconUrl), fields.title)
      ensures var n := if |days| < MaxForecasts then |days| else MaxForecasts;
        forecasts[..] == days[..n] + old(forecasts[..])[n..]
    {
      ParseCurrentObservation(fields);
      ParseForecast(days);
    }
  }
}
