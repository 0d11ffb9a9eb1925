/** `TranslationManager` of assets/js/translation.js: the switcher that
    translates the marked elements and also the page title and meta
    description, and ignores a switch to the language already shown. */
module Translation {
  import opened TranslationTree
  import opened MarkedElements
  import opened LocaleSwitch

  /** The page title and the meta description, each with the translation
      key it carries (None when the element or its key is missing). */
  datatype Head = Head(titleKey: Option<string>, title: string, descriptionKey: Option<string>, description: string)

  /** The content of a title or description after translation: replaced by
      the rendered translation when its key is non-empty and resolves,
      kept otherwise. */
  function HeadContent(key: Option<string>, content: string, obj: Option<Tree>): (r: string)
    ensures r != content ==> key.Some? && key.value != "" && Resolve(obj, Split(key.value)).Some?
    ensures key.Some? && key.value != "" && Resolve(obj, Split(key.value)).Some? ==>
              r == Rendered(Resolve(obj, Split(key.value)).value) && r != ""
  {
    if key.Some? && key.value != "" then
      var found := Resolve(obj, Split(key.value));
      if found.Some? then
        Rendered(found.value)
      else content
    else content
  }

  /** The head after translation against `obj`. */
  function HeadApplied(h: Head, obj: Option<Tree>): (r: Head)
    ensures r.titleKey == h.titleKey && r.descriptionKey == h.descriptionKey
    ensures r.title != h.title ==> h.titleKey.Some? && Resolve(obj, Split(h.titleKey.value)).Some?
    ensures r.description != h.description ==>
              h.descriptionKey.Some? && Resolve(obj, Split(h.descriptionKey.value)).Some?
    ensures obj.None? ==> r == h
  {
    h.(title := HeadContent(h.titleKey, h.title, obj),
       description := HeadContent(h.descriptionKey, h.description, obj))
  }

  /** After a failed load the head is left as it was, whatever the language. */
  lemma HeadAppliedFallback(h: Head, lang: string)
    ensures HeadApplied(h, LocaleTree(Loaded(None), lang)) == h
  {
    if h.titleKey.Some? {
      LookupInFallback(lang, h.titleKey.value);
    }
    if h.descriptionKey.Some? {
      LookupInFallback(lang, h.descriptionKey.value);
    }
  }

  class TranslationManager {
    var currentLanguage: string
    /** The 'raghim-language' entry of local storage. */
    var stored: Option<string>
    var translations: Dictionary
    /** Whether the language menu has the 'active' class. */
    var menuActive: bool
    var buttonLabel: Label
    var head: Head
    /** The elements carrying `data-translate`. */
    const marked: array<Element>

    /** The button shows the current language, and a reload restores a
        non-empty current language. */
    ghost predicate Valid()
      reads this
    {
      buttonLabel == LabelFor(currentLanguage) &&
      (currentLanguage != "" ==> RestoredOnReload(currentLanguage, stored))
    }

    /** The constructor with the `init()` it starts: load the dictionary
        (or fall back), create the switcher, apply the translations. */
    constructor (storedLanguage: Option<string>, fetched: Option<Dictionary>, page: array<Element>, pageHead: Head)
      modifies page
      ensures Valid()
      ensures currentLanguage == InitialLanguage(storedLanguage) && stored == storedLanguage
      ensures translations == Loaded(fetched) && !menuActive && marked == page
      ensures page[..] == AppliedAll(old(page[..]), LocaleTree(translations, currentLanguage))
      ensures head == HeadApplied(pageHead, LocaleTree(translations, currentLanguage))
    {
      var lang := InitialLanguage(storedLanguage);
      currentLanguage := lang;
      stored := storedLanguage;
      translations := Loaded(fetched);
      buttonLabel := LabelFor(lang);
      menuActive := false;
      head := pageHead;
      marked := page;
      new;
      ApplyTranslations();
    }

    /** `getTranslation(key)` in the current language. */
    method GetTranslation(key: string) returns (r: Option<Tree>)
      ensures r == Lookup(translations, currentLanguage, key)
    {
      r := TranslationTree.GetTranslation(LocaleTree(translations, currentLanguage), key);
    }

    /** `applyTranslations()`: the marked elements, then the title and the
        meta description by the same rule. */
    method ApplyTranslations()
      modifies this`head, marked
      ensures marked[..] == AppliedAll(old(marked[..]), LocaleTree(translations, currentLanguage))
      ensures head == HeadApplied(old(head), LocaleTree(translations, currentLanguage))
    {
      TranslateElements(marked, LocaleTree(translations, currentLanguage));
      var titleKey := head.titleKey;
      if titleKey.Some? && titleKey.value != "" {
        var found := GetTranslation(titleKey.value);
        if found.Some? && Truthy(found.value) {
          head := head.(title := Rendered(found.value));
        }
      }
      var descriptionKey := head.descriptionKey;
      if descriptionKey.Some? && descriptionKey.value != "" {
        var found := GetTranslation(descriptionKey.value);
        if found.Some? && Truthy(found.value) {
          head := head.(description := Rendered(found.value));
        }
      }
    }

    /** `updateLanguageSwitcher()`. */
    method UpdateLanguageSwitcher()
      modifies this`buttonLabel
      ensures buttonLabel == LabelFor(currentLanguage)
    {
      buttonLabel := LabelFor(currentLanguage);
    }

    /** `switchLanguage(lang)`: nothing at all when `lang` is already
        current; otherwise the language and its stored copy become `lang`,
        the page is translated again and the button relabelled. */
    method SwitchLanguage(lang: string)
      requires Valid()
      modifies this, marked
      ensures Valid()
      ensures lang == old(currentLanguage) ==> unchanged(this) && unchanged(marked)
      ensures lang != old(currentLanguage) ==>
                currentLanguage == lang && stored == Some(lang) && buttonLabel == LabelFor(lang) &&
                translations == old(translations) && menuActive == old(menuActive) &&
                marked[..] == AppliedAll(old(marked[..]), LocaleTree(translations, lang)) &&
                head == HeadApplied(old(head), LocaleTree(translations, lang))
    {
      if lang == currentLanguage {
        return;
      }
      currentLanguage := lang;
      stored := Some(lang);
      ApplyTranslations();
      UpdateLanguageSwitcher();
    }

    /** A click, through the listeners `bindEvents` installs: the button's
        (toggle), an option's (switch, then close) and the document's, which
        closes the menu when the click is outside the switcher. */
    method DispatchClick(c: Click)
      requires Valid()
      modifies this, marked
      ensures Valid()
      ensures MenuState(menuActive, currentLanguage) == Next(SkipSame, old(MenuState(menuActive, currentLanguage)), c)
      ensures translations == old(translations)
      ensures c.LanguageOption? && c.lang != old(currentLanguage) ==>
                stored == Some(c.lang) && buttonLabel == LabelFor(c.lang) &&
                marked[..] == AppliedAll(old(marked[..]), LocaleTree(translations, c.lang)) &&
                head == HeadApplied(old(head), LocaleTree(translations, c.lang))
      ensures !(c.LanguageOption? && c.lang != old(currentLanguage)) ==>
                stored == old(stored) && buttonLabel == old(buttonLabel) && head == old(head) && unchanged(marked)
    {
      match c
      case Button =>
        menuActive := !menuActive;
      case LanguageOption(lang) =>
        SwitchLanguage(lang);
        menuActive := false;
      case InsideOther =>
      case Outside =>
        menuActive := false;
    }
  }

  /** A switch followed by a reload: the manager built on the next page load
      starts in the chosen language, whether or not the switch was skipped
      as a repeat. */
  method ReloadRestoresLanguage(storedLanguage: Option<string>, fetched: Option<Dictionary>, lang: string)
    returns (reloaded: string)
    requires lang != ""
    ensures reloaded == lang
  {
    var page := new Element[0];
    var manager := new TranslationManager(storedLanguage, fetched, page, Head(None, "", None, ""));
    manager.SwitchLanguage(lang);
    var nextPage := new Element[0];
    var next := new TranslationManager(manager.stored, fetched, nextPage, Head(None, "", None, ""));
    reloaded := next.currentLanguage;
  }

  /** Start-up when the dictionary cannot be loaded: the page keeps its
      markup, head included. */
  method StartWithoutDictionary(storedLanguage: Option<string>, page: array<Element>, pageHead: Head)
    returns (manager: TranslationManager)
    modifies page
    ensures page[..] == old(page[..]) && manager.head == pageHead
  {
    manager := new TranslationManager(storedLanguage, None, page, pageHead);
    AppliedAllFallback(old(page[..]), manager.currentLanguage);
    HeadAppliedFallback(pageHead, manager.currentLanguage);
  }
}
