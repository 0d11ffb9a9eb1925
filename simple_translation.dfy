/** `SimpleTranslationManager` of assets/js/simple-translation.js: the
    dropdown's 'active' class is toggled by one delegated click handler, and
    switching a language only relabels the button and persists the choice;
    no translation is applied. */
module SimpleTranslation {
  import opened TranslationTree
  import opened LocaleSwitch

  class SimpleTranslationManager {
    var currentLanguage: string
    /** The 'raghim-language' entry of local storage. */
    var stored: Option<string>
    /** Whether the dropdown has the 'active' class. */
    var dropdownActive: bool
    var buttonLabel: Label

    /** The button shows the current language, and a reload restores a
        non-empty current language. */
    ghost predicate Valid()
      reads this
    {
      buttonLabel == LabelFor(currentLanguage) &&
      (currentLanguage != "" ==> RestoredOnReload(currentLanguage, stored))
    }

    /** The constructor with its `init()`: create the switcher, inactive,
        labelled with the initial language, and bind the click handler. */
    constructor (storedLanguage: Option<string>)
      ensures Valid() && currentLanguage != ""
      ensures currentLanguage == InitialLanguage(storedLanguage) && stored == storedLanguage
      ensures !dropdownActive
    {
      var lang := InitialLanguage(storedLanguage);
      currentLanguage := lang;
      stored := storedLanguage;
      buttonLabel := LabelFor(lang);
      dropdownActive := false;
    }

    /** `switchLanguage(lang)`: the language and its stored copy become
        `lang` and the button is relabelled; nothing else changes. */
    method SwitchLanguage(lang: string)
      modifies this
      ensures Valid()
      ensures currentLanguage == lang && stored == Some(lang) && buttonLabel == LabelFor(lang)
      ensures dropdownActive == old(dropdownActive)
    {
      currentLanguage := lang;
      stored := Some(lang);
      buttonLabel := LabelFor(lang);
    }

    /** `handleClick(e)`: the button toggles the dropdown; an option calls
        `switchLanguage` only for a non-empty different language, then
        deactivates the dropdown; a click outside the switcher deactivates
        it; any other click does nothing. */
    method HandleClick(c: Click)
      requires Valid()
      modifies this
      ensures Valid()
      ensures MenuState(dropdownActive, currentLanguage) ==
              Next(SkipEmptyOrSame, old(MenuState(dropdownActive, currentLanguage)), c)
      ensures c.LanguageOption? && TakesSwitch(SkipEmptyOrSame, old(currentLanguage), c.lang) ==>
                stored == Some(c.lang) && buttonLabel == LabelFor(c.lang)
      ensures !(c.LanguageOption? && TakesSwitch(SkipEmptyOrSame, old(currentLanguage), c.lang)) ==>
                stored == old(stored) && buttonLabel == old(buttonLabel)
    {
      match c
      case Button =>
        dropdownActive := !dropdownActive;
      case LanguageOption(lang) =>
        if lang != "" && lang != currentLanguage {
          SwitchLanguage(lang);
        }
        dropdownActive := false;
      case InsideOther =>
      case Outside =>
        if dropdownActive {
          dropdownActive := false;
        }
    }
  }

  /** A switch followed by a reload: the manager built on the next page load
      starts in the chosen language. */
  method ReloadRestoresLanguage(storedLanguage: Option<string>, lang: string) returns (reloaded: string)
    requires lang != ""
    ensures reloaded == lang
  {
    var manager := new SimpleTranslationManager(storedLanguage);
    manager.SwitchLanguage(lang);
    var next := new SimpleTranslationManager(manager.stored);
    reloaded := next.currentLanguage;
  }
}
