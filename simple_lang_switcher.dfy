/** assets/js/simple-lang-switcher.js: free functions and listeners, no
    manager object. Every option click persists the chosen language and
    fetches the dictionary afresh to translate the page; a failed fetch
    changes nothing. There is no equality guard. */
module SimpleLangSwitcher {
  import opened TranslationTree
  import opened MarkedElements
  import opened LocaleSwitch

  /** `applyTranslations(lang)`: with the fetched dictionary, every marked
      element is translated against `translations[lang]`; when the fetch or
      the parse fails (None), no element is touched. */
  method ApplyTranslations(marked: array<Element>, lang: string, fetched: Option<Dictionary>)
    modifies marked
    ensures fetched.None? ==> marked[..] == old(marked[..])
    ensures fetched.Some? ==> marked[..] == AppliedAll(old(marked[..]), LocaleTree(fetched.value, lang))
  {
    if fetched.Some? {
      TranslateElements(marked, LocaleTree(fetched.value, lang));
    }
  }

  /** The page-load rule: a saved language is applied only when it is
      non-empty and not "en", that is exactly when the language a manager
      would start in is not "en", and then it is that language. */
  predicate AppliesSavedLanguage(saved: Option<string>)
    ensures AppliesSavedLanguage(saved) <==> InitialLanguage(saved) != "en"
    ensures AppliesSavedLanguage(saved) ==> saved == Some(InitialLanguage(saved))
  {
    saved.Some? && saved.value != "" && saved.value != "en"
  }

  /** The script's last statement: apply the saved language, if any and
      other than "en", with the dictionary that fetch returns. */
  method ApplySavedLanguage(marked: array<Element>, saved: Option<string>, fetched: Option<Dictionary>)
    modifies marked
    ensures AppliesSavedLanguage(saved) && fetched.Some? ==>
              marked[..] == AppliedAll(old(marked[..]), LocaleTree(fetched.value, saved.value))
    ensures !(AppliesSavedLanguage(saved) && fetched.Some?) ==> marked[..] == old(marked[..])
  {
    if saved.Some? && saved.value != "" && saved.value != "en" {
      ApplyTranslations(marked, saved.value, fetched);
    }
  }

  /** The switcher that `createSimpleLanguageSwitcher()` inserts, with the
      state its listeners change. */
  class LanguageSwitcher {
    /** Whether the menu's `style.display` is other than 'none'. */
    var menuVisible: bool
    var buttonLabel: Label
    /** The 'raghim-language' entry of local storage. */
    var stored: Option<string>
    /** The language the button label stands for; no variable of the
        script holds it. */
    ghost var shownLanguage: string
    /** The elements carrying `data-translate`. */
    const marked: array<Element>

    ghost predicate Valid()
      reads this
    {
      buttonLabel == LabelFor(shownLanguage)
    }

    /** `createSimpleLanguageSwitcher()`: the markup always shows English
        with the menu hidden, whatever language is stored. */
    constructor (storedLanguage: Option<string>, page: array<Element>)
      ensures Valid()
      ensures !menuVisible && buttonLabel == EnglishLabel && shownLanguage == "en"
      ensures stored == storedLanguage && marked == page
    {
      menuVisible := false;
      buttonLabel := EnglishLabel;
      stored := storedLanguage;
      shownLanguage := "en";
      marked := page;
    }

    /** A click, through the listeners bound in
        `createSimpleLanguageSwitcher()`: the button toggles the menu; an
        option relabels the button, hides the menu, stores its language and
        translates the page with what fetch returns, whatever the language
        was; a click outside the switcher hides the menu. The button and
        option listeners stop propagation, so the document listener sees
        only the other clicks. */
    method HandleClick(c: Click, fetched: Option<Dictionary>)
      requires Valid()
      modifies this, marked
      ensures Valid()
      ensures MenuState(menuVisible, shownLanguage) ==
              Next(Unguarded, old(MenuState(menuVisible, shownLanguage)), c)
      ensures c.LanguageOption? ==>
                stored == Some(c.lang) && buttonLabel == LabelFor(c.lang) &&
                marked[..] == (if fetched.Some? then AppliedAll(old(marked[..]), LocaleTree(fetched.value, c.lang))
                               else old(marked[..]))
      ensures !c.LanguageOption? ==>
                stored == old(stored) && buttonLabel == old(buttonLabel) && unchanged(marked)
    {
      match c
      case Button =>
        menuVisible := !menuVisible;
      case LanguageOption(lang) =>
        buttonLabel := LabelFor(lang);
        shownLanguage := lang;
        menuVisible := false;
        stored := Some(lang);
        ApplyTranslations(marked, lang, fetched);
      case InsideOther =>
      case Outside =>
        menuVisible := false;
    }
  }
}
