/** The language preference kept in the browser's local storage, shared by the
    contact form (which reads it once when it is set up) and the language toggle
    (which writes it and reads it back on load). Storage is a map from key to
    string; a missing key is what `getItem` reports as `null`. */
module Preference {

  /** The storage key under which the preference is kept. */
  const LanguageKey := "language"

  /** `localStorage.getItem("language") || "en"`: the stored value, unless it is
      missing or the empty string (both falsy in the script), in which case "en". */
  function SavedLanguage(storage: map<string, string>): (lang: string)
    ensures lang != ""
    ensures LanguageKey !in storage ==> lang == "en"
    ensures lang != "en" ==> LanguageKey in storage && storage[LanguageKey] == lang
  {
    if LanguageKey in storage && storage[LanguageKey] != "" then storage[LanguageKey] else "en"
  }

  /** Storing a non-empty language and reading the preference back yields it,
      whatever else the storage holds. */
  lemma StoredLanguageReadsBack(storage: map<string, string>, lang: string)
    requires lang != ""
    ensures SavedLanguage(storage[LanguageKey := lang]) == lang
  {
  }
}
