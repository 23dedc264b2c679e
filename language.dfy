/** The language toggle: `setLanguage` stores the choice, shows every
    dual-language element's text in that language, marks the page's root with it
    and lights the matching button; `loadSavedLanguage` applies the stored choice
    (English when there is none) once at start-up. */
module Language {
  import Preference

  /** The texts the dual-language elements show for `lang`, chosen element by
      element: Portuguese for "pt", English for anything else. The page is never
      left mixed: all elements show one language's texts. */
  function Rendered(lang: string, pt: seq<string>, en: seq<string>): (shown: seq<string>)
    requires |pt| == |en|
    ensures |shown| == |pt|
    ensures shown == pt || shown == en
  {
    seq(|pt|, i requires 0 <= i < |pt| => if lang == "pt" then pt[i] else en[i])
  }

  /** Rendering is settled by the language alone: any language other than "pt",
      recognised or not, shows the English texts. */
  lemma RenderedIsEnglishUnlessPt(lang: string, pt: seq<string>, en: seq<string>)
    requires |pt| == |en|
    ensures lang != "pt" ==> Rendered(lang, pt, en) == en
    ensures lang == "pt" ==> Rendered(lang, pt, en) == pt
  {
  }

  /** The page's language state: local storage, the dual-language elements'
      Portuguese and English attributes and shown text, the root element's
      `data-lang` attribute and the two buttons' "active" flags. */
  class LanguageToggle {
    var storage: map<string, string>
    const pt: seq<string>
    const en: seq<string>
    const shown: array<string>
    var rootLang: string
    var ptActive: bool
    var enActive: bool

    ghost predicate Valid()
      reads this
    {
      |pt| == |en| == shown.Length
    }

    /** The page as loaded, before any script runs: the elements show their
        markup text and neither button is marked. */
    constructor (storage: map<string, string>, pt: seq<string>, en: seq<string>, markup: seq<string>)
      requires |pt| == |en| == |markup|
      ensures Valid() && fresh(shown)
      ensures this.storage == storage && this.pt == pt && this.en == en && shown[..] == markup
      ensures rootLang == "" && !ptActive && !enActive
    {
      this.storage := storage;
      this.pt := pt;
      this.en := en;
      shown := new string[|markup|](i requires 0 <= i < |markup| => markup[i]);
      rootLang := "";
      ptActive, enActive := false, false;
    }

    /** `setLanguage(lang)`. */
    method SetLanguage(lang: string)
      requires Valid()
      modifies this, shown
      ensures Valid()
      ensures storage == old(storage)[Preference.LanguageKey := lang]
      ensures shown[..] == Rendered(lang, pt, en)
      ensures rootLang == lang
      ensures ptActive <==> lang == "pt"
      ensures enActive <==> lang == "en"
    {
      storage := storage[Preference.LanguageKey := lang];
      var i := 0;
      while i < shown.Length
        modifies shown
        invariant 0 <= i <= shown.Length
        invariant forall k :: 0 <= k < i ==> shown[k] == (if lang == "pt" then pt[k] else en[k])
      {
        shown[i] := if lang == "pt" then pt[i] else en[i];
        i := i + 1;
      }
      rootLang := lang;
      ptActive := lang == "pt";
      enActive := lang == "en";
    }

    /** `loadSavedLanguage()`: apply the stored language, "en" when none is stored. */
    method LoadSavedLanguage()
      requires Valid()
      modifies this, shown
      ensures Valid()
      ensures rootLang == Preference.SavedLanguage(old(storage))
      ensures storage == old(storage)[Preference.LanguageKey := rootLang]
      ensures shown[..] == Rendered(rootLang, pt, en)
      ensures ptActive <==> rootLang == "pt"
      ensures enActive <==> rootLang == "en"
    {
      var saved := Preference.SavedLanguage(storage);
      SetLanguage(saved);
    }
  }

  /** Choosing Portuguese and reloading the page: the new page reads "pt" back
      from storage and shows every element's Portuguese text. */
  method ReloadAfterChoosingPortuguese(page: LanguageToggle, markup: seq<string>) returns (reloaded: LanguageToggle)
    requires page.Valid() && |markup| == |page.pt|
    modifies page, page.shown
    ensures reloaded.Valid()
    ensures reloaded.rootLang == "pt" && reloaded.ptActive && !reloaded.enActive
    ensures reloaded.shown[..] == page.pt
  {
    page.SetLanguage("pt");
    reloaded := new LanguageToggle(page.storage, page.pt, page.en, markup);
    Preference.StoredLanguageReadsBack(old(page.storage), "pt");
    reloaded.LoadSavedLanguage();
    RenderedIsEnglishUnlessPt("pt", page.pt, page.en);
  }
}
