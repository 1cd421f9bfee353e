/** The predefined colour themes, as the theme provider's table defines them. */
module Themes {

  datatype Theme = Theme(
    name: string,
    description: string,
    primary: string,
    secondary: string,
    accent: string,
    background: string,
    darkBackground: string)

  /** The three colours a player can edit. */
  datatype Colors = Colors(primary: string, secondary: string, accent: string)

  const CustomKey: string := "custom"

  const VibrantTheme: Theme := Theme("Vibrant", "Energetic purple and pink tones",
    "#8a5cf7", "#f472b6", "#06b6d4",
    "from-indigo-50 to-pink-50", "from-gray-900 to-purple-900")

  const ForestTheme: Theme := Theme("Forest", "Calming natural green palette",
    "#059669", "#65a30d", "#16a34a",
    "from-green-50 to-emerald-50", "from-gray-900 to-green-900")

  const OceanTheme: Theme := Theme("Ocean", "Refreshing blue and teal tones",
    "#8a5cf7", "#f472b6", "#06b6d4",
    "from-indigo-50 to-pink-50", "from-gray-900 to-purple-900")

  const CalmTheme: Theme := Theme("Calm", "Soothing blue and green shades",
    "#3b82f6", "#10b981", "#0ea5e9",
    "from-blue-50 to-green-50", "from-gray-900 to-blue-900")

  const MidnightTheme: Theme := Theme("Midnight", "Elegant dark purple and blue",
    "#3b82f6", "#10b981", "#0ea5e9",
    "from-blue-50 to-green-50", "from-gray-900 to-blue-900")

  const SunsetTheme: Theme := Theme("Sunset", "Warm orange and pink gradient",
    "#f97316", "#ec4899", "#f59e0b",
    "from-orange-50 to-pink-50", "from-gray-900 to-orange-900")

  const CustomTheme: Theme := Theme("Custom", "Your personalized color theme",
    "#8a5cf7", "#f472b6", "#06b6d4",
    "from-indigo-50 to-pink-50", "from-gray-900 to-purple-900")

  /** The table, keyed by the lower-case theme name. The ocean entry lists
      primary, secondary and accent twice; as in any object literal the later
      values are the ones kept. Its backgrounds are listed once, and those
      single values happen to equal the vibrant entry's. */
  const Predefined: map<string, Theme> := map[
    "vibrant" := VibrantTheme,
    "forest" := ForestTheme,
    "ocean" := OceanTheme,
    "calm" := CalmTheme,
    "midnight" := MidnightTheme,
    "sunset" := SunsetTheme,
    CustomKey := CustomTheme
  ]

  function ColorsOf(t: Theme): Colors {
    Colors(t.primary, t.secondary, t.accent)
  }

  /** The theme with its three colours replaced and everything else kept. */
  function WithColors(t: Theme, c: Colors): (r: Theme)
    ensures ColorsOf(r) == c
    ensures r.name == t.name && r.description == t.description
    ensures r.background == t.background && r.darkBackground == t.darkBackground
  {
    t.(primary := c.primary, secondary := c.secondary, accent := c.accent)
  }

  /** Lower-casing of the ASCII capitals; every other character is kept. */
  function LowerChar(ch: char): char {
    if 'A' <= ch <= 'Z' then (ch as int - 'A' as int + 'a' as int) as char else ch
  }

  predicate NoCapitals(s: string) {
    forall i :: 0 <= i < |s| ==> !('A' <= s[i] <= 'Z')
  }

  /** Lower-casing keeps the length, leaves no ASCII capital behind, and
      changes nothing in a string that has none. */
  function Lower(s: string): (r: string)
    ensures |r| == |s|
    ensures forall i :: 0 <= i < |s| ==> r[i] == LowerChar(s[i])
    ensures NoCapitals(r)
    ensures NoCapitals(s) ==> r == s
  {
    seq(|s|, i requires 0 <= i < |s| => LowerChar(s[i]))
  }

  /** A capitalised word lower-cases to its key. */
  lemma LowerCapitalized(name: string, key: string)
    requires |name| == |key| > 0
    requires LowerChar(name[0]) == key[0]
    requires name[1..] == key[1..] && NoCapitals(key)
    ensures Lower(name) == key
  {
    var l := Lower(name);
    forall i | 0 <= i < |key| ensures l[i] == key[i] {
      if i > 0 {
        assert name[i] == name[1..][i - 1] == key[1..][i - 1] == key[i];
      }
    }
  }

  /** One lemma per entry keeps each lower-casing proof small. */
  lemma VibrantNameIsKey() ensures Lower(VibrantTheme.name) == "vibrant" {
    LowerCapitalized(VibrantTheme.name, "vibrant");
  }
  lemma ForestNameIsKey() ensures Lower(ForestTheme.name) == "forest" {
    LowerCapitalized(ForestTheme.name, "forest");
  }
  lemma OceanNameIsKey() ensures Lower(OceanTheme.name) == "ocean" {
    LowerCapitalized(OceanTheme.name, "ocean");
  }
  lemma CalmNameIsKey() ensures Lower(CalmTheme.name) == "calm" {
    LowerCapitalized(CalmTheme.name, "calm");
  }
  lemma MidnightNameIsKey() ensures Lower(MidnightTheme.name) == "midnight" {
    LowerCapitalized(MidnightTheme.name, "midnight");
  }
  lemma SunsetNameIsKey() ensures Lower(SunsetTheme.name) == "sunset" {
    LowerCapitalized(SunsetTheme.name, "sunset");
  }
  lemma CustomNameIsKey() ensures Lower(CustomTheme.name) == "custom" {
    LowerCapitalized(CustomTheme.name, "custom");
  }

  /** Each entry's name, lower-cased, is its own key. */
  lemma NamesAreKeys(key: string)
    requires key in Predefined
    ensures Lower(Predefined[key].name) == key
  {
    if key == "vibrant" {
      VibrantNameIsKey();
    } else if key == "forest" {
      ForestNameIsKey();
    } else if key == "ocean" {
      OceanNameIsKey();
    } else if key == "calm" {
      CalmNameIsKey();
    } else if key == "midnight" {
      MidnightNameIsKey();
    } else if key == "sunset" {
      SunsetNameIsKey();
    } else {
      CustomNameIsKey();
    }
  }

  /** The ocean entry, as written, carries the vibrant entry's colours. */
  lemma OceanShowsVibrantColors()
    ensures ColorsOf(Predefined["ocean"]) == ColorsOf(Predefined["vibrant"])
    ensures Predefined["ocean"].primary != "#0284c7"
  {
  }
}
