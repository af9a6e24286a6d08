/** The sky-state icon: the lower-cased condition text is tested against a fixed list of
    words, the first that occurs decides, and the icon code's trailing 'n' (night) picks
    the moon variants. */
module WeatherIcon {
  import opened Wrappers
  import opened JsStrings

  /** The glyphs the component draws. */
  datatype Glyph = CloudLightning | Snowflake | CloudRain | Sun | Moon | CloudSun | CloudMoon | Cloud

  /** A drawn icon: the glyph and its colour classes. */
  datatype Rendered = Rendered(glyph: Glyph, className: string)

  /** The word class a condition falls in, by the first test that matches. */
  datatype Sky = Storm | Snow | Rain | Clear | Cloudy | Overcast | Other

  /** `condition?.toLowerCase() || ''`. */
  function ConditionText(condition: Option<string>): string
  {
    match condition
    case None => ""
    case Some(c) => Lower(c)
  }

  /** `icon?.endsWith('n')`; a missing icon is day. */
  predicate IsNight(icon: Option<string>)
  {
    icon.Some? && EndsWith(icon.value, "n")
  }

  /** The chain of substring tests, in the order the component makes them. */
  function SkyOf(c: string): (s: Sky)
    ensures s == Storm <==> Contains(c, "tormenta")
    ensures s == Snow <==> !Contains(c, "tormenta") && Contains(c, "nieve")
    ensures s == Rain <==> !Contains(c, "tormenta") && !Contains(c, "nieve") && Contains(c, "lluvia")
    ensures s == Clear <==>
              (!Contains(c, "tormenta") && !Contains(c, "nieve") && !Contains(c, "lluvia")
               && (Contains(c, "despejado") || Contains(c, "sol")))
    ensures s == Cloudy <==>
              (!Contains(c, "tormenta") && !Contains(c, "nieve") && !Contains(c, "lluvia")
               && !Contains(c, "despejado") && !Contains(c, "sol")
               && (Contains(c, "nubes") || Contains(c, "nuboso")))
    ensures s == Overcast <==>
              (!Contains(c, "tormenta") && !Contains(c, "nieve") && !Contains(c, "lluvia")
               && !Contains(c, "despejado") && !Contains(c, "sol") && !Contains(c, "nubes")
               && !Contains(c, "nuboso") && Contains(c, "cubierto"))
    ensures s == Other <==>
              (!Contains(c, "tormenta") && !Contains(c, "nieve") && !Contains(c, "lluvia")
               && !Contains(c, "despejado") && !Contains(c, "sol") && !Contains(c, "nubes")
               && !Contains(c, "nuboso") && !Contains(c, "cubierto"))
  {
    if Contains(c, "tormenta") then Storm
    else if Contains(c, "nieve") then Snow
    else if Contains(c, "lluvia") then Rain
    else if Contains(c, "despejado") || Contains(c, "sol") then Clear
    else if Contains(c, "nubes") || Contains(c, "nuboso") then Cloudy
    else if Contains(c, "cubierto") then Overcast
    else Other
  }

  /** The icon of a word class, by day or by night. */
  function Render(sky: Sky, night: bool): (r: Rendered)
    ensures sky == Storm ==> r == Rendered(CloudLightning, "text-yellow-500")
    ensures sky == Snow ==> r == Rendered(Snowflake, "text-blue-200")
    ensures sky == Rain ==> r == Rendered(CloudRain, "text-blue-400")
    ensures sky == Clear ==>
              r == (if night then Rendered(Moon, "text-indigo-200") else Rendered(Sun, "text-yellow-400"))
    ensures sky == Cloudy ==> r.glyph == (if night then CloudMoon else CloudSun)
    ensures sky == Cloudy ==> r.className == "text-slate-400"
    ensures sky == Overcast ==> r == Rendered(CloudRain, "text-blue-400 opacity-80")
    ensures sky == Other ==> r == Rendered(Cloud, "text-slate-400")
    ensures r.glyph == CloudRain <==> sky == Rain || sky == Overcast
    ensures r.glyph in {Moon, CloudMoon} ==> night
  {
    match sky
    case Storm => Rendered(CloudLightning, "text-yellow-500")
    case Snow => Rendered(Snowflake, "text-blue-200")
    case Rain => Rendered(CloudRain, "text-blue-400")
    case Clear => if night then Rendered(Moon, "text-indigo-200") else Rendered(Sun, "text-yellow-400")
    case Cloudy => if night then Rendered(CloudMoon, "text-slate-400") else Rendered(CloudSun, "text-slate-400")
    case Overcast => Rendered(CloudRain, "text-blue-400 opacity-80")
    case Other => Rendered(Cloud, "text-slate-400")
  }

  /** `WeatherIcon({ condition, icon })`. */
  function IconFor(condition: Option<string>, icon: Option<string>): Rendered
  {
    Render(SkyOf(ConditionText(condition)), IsNight(icon))
  }

  /** Night changes the icon only for clear and cloudy skies. */
  lemma NightOnlyForClearAndCloudy(condition: Option<string>, icon1: Option<string>, icon2: Option<string>)
    ensures IconFor(condition, icon1) != IconFor(condition, icon2) ==>
              SkyOf(ConditionText(condition)) in {Clear, Cloudy}
  {
  }

  /** A storm wins over every other word, by day and by night. */
  lemma StormWins(c: string, icon: Option<string>)
    requires Contains(Lower(c), "tormenta")
    ensures IconFor(Some(c), icon) == Rendered(CloudLightning, "text-yellow-500")
  {
  }

  /** A string shorter than a word cannot contain it. */
  lemma ShortNeverContains(s: string, t: string)
    requires |s| < |t|
    ensures !Contains(s, t)
  {
    ContainsIff(s, t);
  }

  /** A missing or empty condition always draws the default cloud. */
  lemma EmptyConditionIsCloud(icon: Option<string>)
    ensures IconFor(None, icon) == IconFor(Some(""), icon) == Rendered(Cloud, "text-slate-400")
  {
    assert ConditionText(Some("")) == "";
    ShortNeverContains("", "tormenta");
    ShortNeverContains("", "nieve");
    ShortNeverContains("", "lluvia");
    ShortNeverContains("", "despejado");
    ShortNeverContains("", "sol");
    ShortNeverContains("", "nubes");
    ShortNeverContains("", "nuboso");
    ShortNeverContains("", "cubierto");
  }

  /** Lower-casing a lower-cased character changes nothing. */
  lemma LowerCharIdempotent(ch: char)
    ensures LowerChar(LowerChar(ch)) == LowerChar(ch)
  {
  }

  /** The condition's letter case never matters. */
  lemma CaseInsensitive(c: string, icon: Option<string>)
    ensures IconFor(Some(Lower(c)), icon) == IconFor(Some(c), icon)
  {
    forall k | 0 <= k < |c| ensures Lower(Lower(c))[k] == Lower(c)[k] {
      LowerCharIdempotent(c[k]);
    }
    assert Lower(Lower(c)) == Lower(c);
  }
}
