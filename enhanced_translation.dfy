/** `EnhancedTranslationManager` of assets/js/enhanced-translation.js: one
    delegated click handler drives the menu through its inline `display`
    style; the option handler skips an empty or unchanged language, and
    `switchLanguage` itself has no guard. */
module EnhancedTranslation {
  import opened TranslationTree
  import opened MarkedElements
  import opened LocaleSwitch

  class EnhancedTranslationManager {
    var currentLanguage: string
    /** The 'raghim-language' entry of local storage. */
    var stored: Option<string>
    var translations: Dictionary
    /** Whether the menu's `style.display` is other than 'none'. */
    var menuVisible: bool
    var buttonLabel: Label
    /** The elements carrying `data-translate`. */
    const marked: array<Element>

    /** The button shows the current language, and a reload restores a
        non-empty current language. */
    ghost predicate Valid()
      reads this
    {
      buttonLabel == LabelFor(currentLanguage) &&
      (currentLanguage != "" ==> RestoredOnReload(currentLanguage, stored))
    }

    /** The constructor with the `init()` it starts: load the dictionary
        (or fall back), create the switcher with its menu hidden, bind the
        click handler, apply the translations. */
    constructor (storedLanguage: Option<string>, fetched: Option<Dictionary>, page: array<Element>)
      modifies page
      ensures Valid() && currentLanguage != ""
      ensures currentLanguage == InitialLanguage(storedLanguage) && stored == storedLanguage
      ensures translations == Loaded(fetched) && !menuVisible && marked == page
      ensures page[..] == AppliedAll(old(page[..]), LocaleTree(translations, currentLanguage))
    {
      var lang := InitialLanguage(storedLanguage);
      currentLanguage := lang;
      stored := storedLanguage;
      translations := Loaded(fetched);
      buttonLabel := LabelFor(lang);
      menuVisible := false;
      marked := page;
      new;
      ApplyTranslations();
    }

    /** `getTranslation(key)` in the current language. */
    method GetTranslation(key: string) returns (r: Option<Tree>)
      ensures r == Lookup(translations, currentLanguage, key)
    {
      r := TranslationTree.GetTranslation(LocaleTree(translations, currentLanguage), key);
    }

    /** `applyTranslations()`: the marked elements only. */
    method ApplyTranslations()
      modifies marked
      ensures marked[..] == AppliedAll(old(marked[..]), LocaleTree(translations, currentLanguage))
    {
      TranslateElements(marked, LocaleTree(translations, currentLanguage));
    }

    /** `switchLanguage(lang)`: the language and its stored copy become
        `lang`, the button is relabelled and the page translated again,
        even when `lang` is already current. */
    method SwitchLanguage(lang: string)
      modifies this, marked
      ensures Valid()
      ensures currentLanguage == lang && stored == Some(lang) && buttonLabel == LabelFor(lang)
      ensures translations == old(translations) && menuVisible == old(menuVisible)
      ensures marked[..] == AppliedAll(old(marked[..]), LocaleTree(translations, lang))
    {
      currentLanguage := lang;
      stored := Some(lang);
      buttonLabel := LabelFor(lang);
      ApplyTranslations();
    }

    /** `handleClick(e)`: the button toggles the menu; an option switches
        when its language is non-empty and differs, then hides the menu;
        a click outside the switcher hides it; any other click does nothing. */
    method HandleClick(c: Click)
      requires Valid()
      modifies this, marked
      ensures Valid()
      ensures MenuState(menuVisible, currentLanguage) ==
              Next(SkipEmptyOrSame, old(MenuState(menuVisible, currentLanguage)), c)
      ensures translations == old(translations)
      ensures c.LanguageOption? && TakesSwitch(SkipEmptyOrSame, old(currentLanguage), c.lang) ==>
                stored == Some(c.lang) && buttonLabel == LabelFor(c.lang) &&
                marked[..] == AppliedAll(old(marked[..]), LocaleTree(translations, c.lang))
      ensures !(c.LanguageOption? && TakesSwitch(SkipEmptyOrSame, old(currentLanguage), c.lang)) ==>
                stored == old(stored) && buttonLabel == old(buttonLabel) && unchanged(marked)
    {
      match c
      case Button =>
        menuVisible := !menuVisible;
      case LanguageOption(lang) =>
        if lang != "" && lang != currentLanguage {
          SwitchLanguage(lang);
        }
        menuVisible := false;
      case InsideOther =>
      case Outside =>
        if menuVisible {
          menuVisible := false;
        }
    }
  }
}
