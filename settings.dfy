/**
 * `this.settings` of app.js: a flat record of named values, read with
 * JavaScript truthiness and changed one key at a time.
 */
module Settings {

  /** A stored setting: a boolean toggle or a word such as the theme name. */
  datatype Setting = Flag(on: bool) | Word(text: string)

  type Settings = map<string, Setting>

  /** The settings a first start uses when nothing is stored. */
  const Defaults: Settings :=
    map["haptics" := Flag(true), "theme" := Word("dark"), "autoSort" := Flag(true)]

  /** JavaScript truthiness of a stored value (the empty string is falsy). */
  predicate Truthy(v: Setting)
  {
    match v
    case Flag(b) => b
    case Word(s) => s != ""
  }

  /**
   * `this.settings[k] = !this.settings[k]`: the key becomes the boolean negation
   * of its truthiness (a missing key reads as undefined and becomes true); no
   * other key changes.
   */
  function Toggled(s: Settings, key: string): (r: Settings)
    ensures r.Keys == s.Keys + {key}
    ensures r[key] == Flag(!(key in s && Truthy(s[key])))
    ensures forall k :: k in s && k != key ==> r[k] == s[k]
  {
    s[key := Flag(!(key in s && Truthy(s[key])))]
  }

  /** A boolean setting toggled twice is back where it was. */
  lemma ToggleTwiceRestores(s: Settings, key: string)
    requires key in s && s[key].Flag?
    ensures Toggled(Toggled(s, key), key) == s
  {
    var r := Toggled(Toggled(s, key), key);
    assert r.Keys == s.Keys;
  }

  /**
   * `theme === 'dark' ? 'light' : 'dark'`: the theme becomes light exactly when
   * it was dark, and dark otherwise (also when it was missing or another word);
   * no other key changes.
   */
  function ThemeCycled(s: Settings): (r: Settings)
    ensures r.Keys == s.Keys + {"theme"}
    ensures r["theme"] == Word("light") <==> "theme" in s && s["theme"] == Word("dark")
    ensures r["theme"] == Word("light") || r["theme"] == Word("dark")
    ensures forall k :: k in s && k != "theme" ==> r[k] == s[k]
  {
    s["theme" := Word(if "theme" in s && s["theme"] == Word("dark") then "light" else "dark")]
  }

  /** With a dark or light theme, cycling twice restores the settings. */
  lemma ThemeCycleTwiceRestores(s: Settings)
    requires "theme" in s && (s["theme"] == Word("dark") || s["theme"] == Word("light"))
    ensures ThemeCycled(ThemeCycled(s)) == s
  {
    var r := ThemeCycled(ThemeCycled(s));
    assert r.Keys == s.Keys;
  }
}
