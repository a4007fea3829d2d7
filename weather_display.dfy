/**
 * `WeatherDisplay` (src/ui/weather_display.cpp): the parts of the OLED
 * user interface that decide something rather than draw it — the Meteocons
 * glyph for a Weather Underground icon name, the pixels of the Wi-Fi signal
 * bars, the boot screen's three-dot progress indicator, the forecast
 * frame's columns and the time budget `update` returns.  Fonts, coordinates
 * of text and the OLED calls are not modelled; the value `ui.update()`
 * returns is a parameter.
 */
module Display {
  import opened Arduino
  import WundergroundConditions

  /** `ConvertIconTextToMeteoconIcon`: the glyph of the Meteocons font for an icon name, `")"` for any other name. */
  function MeteoconIcon(iconText: string): string
  {
    if iconText == "chanceflurries" then "F"
    else if iconText == "chancerain" then "Q"
    else if iconText == "chancesleet" then "W"
    else if iconText == "chancesnow" then "V"
    else if iconText == "chancetstorms" then "S"
    else if iconText == "clear" then "B"
    else if iconText == "cloudy" then "Y"
    else if iconText == "flurries" then "F"
    else if iconText == "fog" then "M"
    else if iconText == "hazy" then "E"
    else if iconText == "mostlycloudy" then "Y"
    else if iconText == "mostlysunny" then "H"
    else if iconText == "partlycloudy" then "H"
    else if iconText == "partlysunny" then "J"
    else if iconText == "sleet" then "W"
    else if iconText == "rain" then "R"
    else if iconText == "snow" then "W"
    else if iconText == "sunny" then "B"
    else if iconText == "tstorms" then "0"
    else if iconText == "nt_chanceflurries" then "F"
    else if iconText == "nt_chancerain" then "7"
    else if iconText == "nt_chancesleet" then "#"
    else if iconText == "nt_chancesnow" then "#"
    else if iconText == "nt_chancetstorms" then "&"
    else if iconText == "nt_clear" then "2"
    else if iconText == "nt_cloudy" then "Y"
    else if iconText == "nt_flurries" then "9"
    else if iconText == "nt_fog" then "M"
    else if iconText == "nt_hazy" then "E"
    else if iconText == "nt_mostlycloudy" then "5"
    else if iconText == "nt_mostlysunny" then "3"
    else if iconText == "nt_partlycloudy" then "4"
    else if iconText == "nt_partlysunny" then "4"
    else if iconText == "nt_sleet" then "9"
    else if iconText == "nt_rain" then "7"
    else if iconText == "nt_snow" then "#"
    else if iconText == "nt_sunny" then "4"
    else if iconText == "nt_tstorms" then "&"
    else ")"
  }

  /** The icon names Weather Underground documents: nineteen for the day, and each with the `nt_` prefix for the night. */
  const KnownIcons: set<string> := {"chanceflurries", "chancerain", "chancesleet", "chancesnow", "chancetstorms",
    "clear", "cloudy", "flurries", "fog", "hazy", "mostlycloudy", "mostlysunny", "partlycloudy", "partlysunny",
    "sleet", "rain", "snow", "sunny", "tstorms",
    "nt_chanceflurries", "nt_chancerain", "nt_chancesleet", "nt_chancesnow", "nt_chancetstorms",
    "nt_clear", "nt_cloudy", "nt_flurries", "nt_fog", "nt_hazy", "nt_mostlycloudy", "nt_mostlysunny",
    "nt_partlycloudy", "nt_partlysunny", "nt_sleet", "nt_rain", "nt_snow", "nt_sunny", "nt_tstorms"}

  /**
   * Every name gets a single glyph, and a name falls back to `")"` exactly
   * when it is not one of the documented icon names: the table has an entry
   * of its own for each of them.
   */
  lemma MeteoconIconFallback(iconText: string)
    ensures |MeteoconIcon(iconText)| == 1
    ensures MeteoconIcon(iconText) == ")" <==> iconText !in KnownIcons
  {
  }

  /** The mapping is many-to-one and tells day from night: clear and sunny share a glyph, the clear night has its own. */
  lemma MeteoconIconDayAndNight()
    ensures MeteoconIcon("clear") == MeteoconIcon("sunny") == "B"
    ensures MeteoconIcon("nt_clear") == "2" != MeteoconIcon("clear")
    ensures MeteoconIcon("nt_cloudy") == MeteoconIcon("cloudy") == "Y"
  {
  }

  /** A pixel of the 128x64 display. */
  datatype Pixel = Pixel(x: int, y: int)

  /** The loop test of `DrawHeaderOverlay`: pixel `j` of bar `i` is set for a quality above `25 i`, or as the bottom pixel. */
  predicate BarPixelLit(quality: int, i: int, j: int)
  {
    quality > i * 25 || j == 0
  }

  /** The pixels the two nested loops set: bar `i` (0..3) in column `120 + 2 i`, rows `63 - j` for `j < 2 (i + 1)`. */
  function SignalPixels(quality: int): set<Pixel>
  {
    set i: int, j: int | 0 <= i < 4 && 0 <= j < 2 * (i + 1) && BarPixelLit(quality, i, j) :: Pixel(120 + 2 * i, 63 - j)
  }

  /** The height of bar `i` for a quality. */
  function BarHeight(quality: int, i: int): int
  {
    if quality > 25 * i then 2 * (i + 1) else 1
  }

  /**
   * Bar `i` stands at its full height `2 (i + 1)` exactly when the quality
   * is above `25 i`; otherwise only its bottom pixel is set.  No pixel lies
   * outside the four bar columns.
   */
  lemma SignalBars(quality: int, i: int, j: int)
    requires 0 <= i < 4
    ensures Pixel(120 + 2 * i, 63 - j) in SignalPixels(quality) <==> 0 <= j < BarHeight(quality, i)
  {
    if 0 <= j < BarHeight(quality, i) {
      assert BarPixelLit(quality, i, j);
    }
    if Pixel(120 + 2 * i, 63 - j) in SignalPixels(quality) {
      var i', j' :| 0 <= i' < 4 && 0 <= j' < 2 * (i' + 1) && BarPixelLit(quality, i', j')
        && Pixel(120 + 2 * i', 63 - j') == Pixel(120 + 2 * i, 63 - j);
      assert i' == i && j' == j;
    }
  }

  /** Every pixel set belongs to one of the four bars. */
  lemma SignalColumns(quality: int, p: Pixel)
    requires p in SignalPixels(quality)
    ensures p.x in {120, 122, 124, 126} && 56 <= p.y <= 63
  {
  }

  /** The boot screen's dots, left to right: whether each is the active one. */
  function Dots(progress: int): seq<bool>
  {
    [progress % 3 == 0, progress % 3 == 1, progress % 3 == 2]
  }

  /** Exactly one dot is active, the one at `progress mod 3`. */
  lemma OneActiveDot(progress: nat, k: nat)
    requires k < 3
    ensures Dots(progress)[k] <==> k == progress % 3
  {
  }

  /** The label a forecast column shows: the first three characters of the day's title, upper-cased. */
  function DayLabel(title: string): (shown: string)
    ensures |shown| == (if |title| < 3 then |title| else 3)
    ensures forall k :: 0 <= k < |shown| ==> shown[k] == UpperChar(title[k])
  {
    ToUpper(Substring(title, 0, 3))
  }

  /** What one forecast column shows: the day label, the glyph, the low and the high. */
  datatype Column = Column(day: string, icon: string, low: real, high: real)

  /** The column for one forecast. */
  function ColumnOf(f: WundergroundConditions.Forecast): Column
  {
    Column(DayLabel(f.title), MeteoconIcon(f.icon), f.lowTemperature, f.highTemperature)
  }

  /** `DrawForecast`: the columns for periods 1, 2 and 3 of the forecast slots. */
  function ForecastColumns(slots: seq<WundergroundConditions.Forecast>): seq<Column>
    requires |slots| == WundergroundConditions.MaxForecasts
  {
    seq(3, k requires 0 <= k < 3 => ColumnOf(slots[k + 1]))
  }

  /** The forecast frame shows the three days after the first slot, in order, and never the first slot. */
  lemma ForecastColumnsPeriods(slots: seq<WundergroundConditions.Forecast>)
    requires |slots| == WundergroundConditions.MaxForecasts
    ensures |ForecastColumns(slots)| == 3
    ensures ForecastColumns(slots) == [ColumnOf(slots[1]), ColumnOf(slots[2]), ColumnOf(slots[3])]
  {
  }

  /** The budget `update` returns while a full-screen view is shown. */
  const ScreenBudget: int := 800

  class WeatherDisplay {
    var showUpdateScreen: bool
    var showBootScreen: bool
    var progress: int
    var progressDirection: int
    var wifiQuality: int
    /** The dots of every boot screen drawn, in order. */
    ghost var drawn: seq<seq<bool>>

    ghost predicate Valid()
      reads this
    {
      progress >= 0
    }

    constructor ()
      ensures Valid() && !showUpdateScreen && !showBootScreen && drawn == []
    {
      showUpdateScreen, showBootScreen := false, false;
      progress, progressDirection, wifiQuality := 0, 0, 0;
      drawn := [];
    }

    /** `drawBootScreen()`: one step of progress, then the dot at the new progress mod 3 is drawn active. */
    method DrawBootScreen()
      requires Valid()
      modifies this`progress, this`drawn
      ensures Valid()
      ensures progress == old(progress) + 1
      ensures drawn == old(drawn) + [Dots(progress)]
    {
      progress := progress + 1;
      drawn := drawn + [[progress % 3 == 0, progress % 3 == 1, progress % 3 == 2]];
    }

    /** `setShowBootScreen(show)`: showing it restarts the progress and draws the first step, with the middle dot active. */
    method SetShowBootScreen(show: bool)
      requires Valid()
      modifies this`showBootScreen, this`progress, this`progressDirection, this`drawn
      ensures Valid()
      ensures showBootScreen == show
      ensures show ==> progress == 1 && progressDirection == 0 && drawn == old(drawn) + [[false, true, false]]
      ensures !show ==> progress == old(progress) && progressDirection == old(progressDirection) && drawn == old(drawn)
    {
      showBootScreen := show;
      if showBootScreen {
        progress := 0;
        progressDirection := 0;
        DrawBootScreen();
      }
    }

    method SetShowUpdateScreen(show: bool)
      modifies this`showUpdateScreen
      ensures showUpdateScreen == show
    {
      showUpdateScreen := show;
    }

    method SetWifiQuality(quality: int)
      modifies this`wifiQuality
      ensures wifiQuality == quality
    {
      wifiQuality := quality;
    }

    /**
     * `update()`: 800 ms while the update screen or the boot screen is
     * shown, the boot screen advancing one step; otherwise whatever
     * `ui.update()` returns.
     */
    method Update(uiBudget: int) returns (budget: int)
      requires Valid()
      modifies this`progress, this`drawn
      ensures Valid()
      ensures budget == if showUpdateScreen || showBootScreen then ScreenBudget else uiBudget
      ensures !showUpdateScreen && showBootScreen ==> progress == old(progress) + 1 && drawn == old(drawn) + [Dots(progress)]
      ensures showUpdateScreen || !showBootScreen ==> progress == old(progress) && drawn == old(drawn)
    {
      if showUpdateScreen {
      } else if showBootScreen {
        DrawBootScreen();
      } else {
        return uiBudget;
      }
      return ScreenBudget;
    }
  }
}
