/** The front end's `LanguageManager`: the current language, the message
    tables loaded so far, and the preference kept in `localStorage`. The two
    built-in tables are parameters; DOM updates are not modelled. */
module LanguageManager {
  import opened Wrappers

  type Table = map<string, string>

  /** The built-in English and Chinese tables of `getFallbackMessages`. */
  datatype Catalogues = Catalogues(en: Table, zh: Table)

  datatype Manager = Manager(
    current: string,
    messages: map<string, Table>,
    stored: Option<string>)        // `localStorage.preferredLanguage`

  const DefaultLanguage: string := "en"
  const SupportedLanguages: seq<string> := ["en", "zh"]
  const RtlLanguages: seq<string> := ["ar", "he", "fa"]

  /** JavaScript truthiness of a string: only the empty string is falsy. */
  predicate Truthy(s: string) {
    s != ""
  }

  /** `getFallbackMessages(language)`: the table for `en` or `zh`, English otherwise. */
  function FallbackMessages(cat: Catalogues, language: string): (r: Table)
    ensures language == "zh" ==> r == cat.zh
    ensures language != "zh" ==> r == cat.en
  {
    if language == "en" then cat.en
    else if language == "zh" then cat.zh
    else cat.en
  }

  /** `loadMessages(language)`. */
  function LoadMessages(m: Manager, cat: Catalogues, language: string): (r: Manager)
    ensures r.messages == m.messages[language := FallbackMessages(cat, language)]
    ensures r.current == m.current && r.stored == m.stored
  {
    m.(messages := m.messages[language := FallbackMessages(cat, language)])
  }

  /** The constructor: the stored preference when it is a non-empty string,
      English otherwise, with that language's table loaded. */
  function Init(cat: Catalogues, stored: Option<string>): (r: Manager)
    ensures r.current == (if stored.Some? && Truthy(stored.value) then stored.value else DefaultLanguage)
    ensures r.messages.Keys == {r.current}
    ensures r.stored == stored
  {
    var current := if stored.Some? && Truthy(stored.value) then stored.value else DefaultLanguage;
    LoadMessages(Manager(current, map[], stored), cat, current)
  }

  /** `getMessage(key)`: the current table's entry, or the key itself when the
      table, the entry, or the entry's text is missing or empty. */
  function GetMessage(m: Manager, key: string): (r: string)
    ensures r != key ==> m.current in m.messages && key in m.messages[m.current]
                         && r == m.messages[m.current][key]
    ensures r == "" ==> key == ""
    ensures m.current in m.messages && key in m.messages[m.current] && Truthy(m.messages[m.current][key])
            ==> r == m.messages[m.current][key]
  {
    if m.current in m.messages && key in m.messages[m.current] && Truthy(m.messages[m.current][key])
    then m.messages[m.current][key]
    else key
  }

  /** `setLanguage(language)`: an unsupported language changes nothing; a
      supported one is loaded if need be, made current and stored. */
  function SetLanguage(m: Manager, cat: Catalogues, language: string): (r: Manager)
    ensures language !in SupportedLanguages ==> r == m
    ensures language in SupportedLanguages ==>
              && r.current == language && r.stored == Some(language)
              && language in r.messages
              && r.messages.Keys == m.messages.Keys + {language}
              && forall l :: l in m.messages ==> r.messages[l] == m.messages[l]
  {
    if language !in SupportedLanguages then m
    else
      // a loaded table is an object, and every object is truthy
      var loaded := if language in m.messages then m else LoadMessages(m, cat, language);
      loaded.(current := language, stored := Some(language))
  }

  /** `getDirection(language)`. */
  function GetDirection(language: string): (r: string)
    ensures r == "rtl" || r == "ltr"
    ensures r == "rtl" <==> exists i :: 0 <= i < |RtlLanguages| && RtlLanguages[i] == language
  {
    if language in RtlLanguages then "rtl" else "ltr"
  }

  /** What a manager can reach: every table loaded is the built-in one for its
      language, and the current language's table is loaded. */
  predicate Consistent(m: Manager, cat: Catalogues) {
    && m.current in m.messages
    && forall l :: l in m.messages ==> m.messages[l] == FallbackMessages(cat, l)
  }

  /** The constructor starts consistent and `setLanguage` keeps it so. */
  lemma ConsistencyIsInvariant(cat: Catalogues, stored: Option<string>, m: Manager, language: string)
    ensures Consistent(Init(cat, stored), cat)
    ensures Consistent(m, cat) ==> Consistent(SetLanguage(m, cat, language), cat)
  {
  }

  /** On a consistent manager a message is looked up in the built-in table of
      the current language: after switching to Chinese a key with Chinese text
      reads that text, and an unsupported language keeps the current text. */
  lemma LookupAfterSwitch(cat: Catalogues, m: Manager, key: string)
    requires Consistent(m, cat)
    ensures var z := SetLanguage(m, cat, "zh");
            GetMessage(z, key) == (if key in cat.zh && cat.zh[key] != "" then cat.zh[key] else key)
    ensures GetMessage(SetLanguage(m, cat, "fr"), key) == GetMessage(m, key)
  {
    var z := SetLanguage(m, cat, "zh");
    assert "zh" in SupportedLanguages;
    assert "fr" !in SupportedLanguages;
    ConsistencyIsInvariant(cat, None, m, "zh");
  }

  /** A stored preference for an unsupported language is still honoured at
      start-up, and its messages come from the English table; an empty stored
      string falls back to English. */
  lemma UnsupportedStoredLanguage(cat: Catalogues, key: string)
    ensures Init(cat, Some("fr")).current == "fr"
    ensures GetMessage(Init(cat, Some("fr")), key) == GetMessage(Init(cat, Some("en")), key)
    ensures Init(cat, Some("")).current == "en"
  {
  }
}
