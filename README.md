# Language switcher of the raghim-docs site, modelled in Dafny

The documentation site's scripts switch the page between English and French.
Four near-duplicate scripts do it:

- `assets/js/translation.js` (`TranslationManager`);
- `assets/js/enhanced-translation.js` (`EnhancedTranslationManager`);
- `assets/js/simple-lang-switcher.js` (free functions and listeners);
- `assets/js/simple-translation.js` (`SimpleTranslationManager`).

The model shares what they have in common, in three modules:

- `TranslationTree` (`translation_tree.dfy`): the translations resource as a tree of strings and
  objects, `key.split('.')`, and the dotted-path walk of `getTranslation`. The walk is a
  loop (`GetTranslation`) proved equal to a recursive specification (`Resolve`).
- `MarkedElements` (`marked_elements.dfy`): the elements carrying `data-translate` as records
  `(key, tagName, inputType, text, value)` in an array, rewritten in place by the `forEach` of
  `applyTranslations` (`TranslateElements`).
- `LocaleSwitch` (`locale_switch.dfy`): the start-up language read from the storage key
  `'raghim-language'`, the button label, the click kinds (button, language option, other
  click inside the switcher, click outside) and the dropdown state machine `Next`.

One thin module per script then captures that script's own differences:

- `Translation` (`translation.dfy`): the menu is the `active` class. `switchLanguage`
  ignores a switch to the current language. Apply also translates the title and the meta
  description.
- `EnhancedTranslation` (`enhanced_translation.dfy`): the menu is the inline `display` style.
  The click handler skips an empty or unchanged language. `switchLanguage` itself has no guard.
- `SimpleLangSwitcher` (`simple_lang_switcher.dfy`): every option click stores the language,
  with no guard. Each apply fetches the dictionary again; a failed fetch changes nothing.
  Saved languages other than "en" are applied at load.
- `SimpleTranslation` (`simple_translation.dfy`): the dropdown's `active` class. A switch only
  relabels and persists; nothing is translated.

Fetching the resource is replaced by a parameter `fetched: Option<Dictionary>`: `None` is a
fetch or parse failure. Local storage is a field `stored: Option<string>`, where `None` is a
missing entry.

Details of the code that the model keeps:

- A lookup may end on a sub-object, not only on a string. The source then writes the object's
  string form, `"[object Object]"`, and so does the model (`Rendered`).
- Any non-empty stored string becomes the start-up language, with no check against the known
  locales.
- Only `translation.js` ignores a repeated switch inside `switchLanguage`.
  `enhanced-translation.js` and `simple-translation.js` skip it in the click handler.
  `simple-lang-switcher.js` never skips it.
- `simple-lang-switcher.js` does not fall back to an empty dictionary when the fetch fails. It
  leaves the page as it is.
- `simple-lang-switcher.js` creates its button showing English whatever language is stored.
  At load it applies a stored non-English language to the page without relabelling the button.
- `translation.js` stores an empty `data-lang` as the empty string, which a reload reads back
  as "en". The invariant `Valid()` therefore promises a faithful reload only for a non-empty
  current language.

## Model

| member | source | states |
|---|---|---|
| TranslationTree.Truthy | assets/js/translation.js:151 | every object is truthy, even an empty one, and a string is truthy iff it is non-empty |
| TranslationTree.Split | assets/js/translation.js:147 | `key.split('.')` yields at least one piece, and no piece contains a dot |
| TranslationTree.JoinSplit | assets/js/translation.js:147 | joining the pieces of a key with dots gives the key back |
| TranslationTree.SplitJoin | assets/js/translation.js:147 | splitting the dotted form of dot-free member names gives those names back |
| TranslationTree.LocaleTree | assets/js/translation.js:148 | `translations[lang]` is defined iff the dictionary has the locale, and is then that locale's tree |
| TranslationTree.Descend | assets/js/translation.js:151-152 | one step of the walk succeeds exactly when the current value is an object holding the member and the member is truthy, and then yields that member |
| TranslationTree.Resolve | assets/js/translation.js:150-158 | a walk that starts from undefined, or has already failed, returns null whatever the remaining segments; a walk of at least one segment never returns a falsy value, so an empty-string leaf counts as not found |
| TranslationTree.Lookup | assets/js/translation.js:146-159 | `getTranslation(key)` finds nothing in a locale the dictionary lacks, and what it finds is truthy |
| TranslationTree.Fallback | assets/js/translation.js:22 | the fallback dictionary `{ en: {}, fr: {} }` has exactly the locales "en" and "fr", each an empty object |
| TranslationTree.Loaded | assets/js/translation.js:16-23 | the dictionary is the parsed resource when loading succeeds, and has exactly the locales "en" and "fr" when it fails |
| TranslationTree.ResolveAppend | assets/js/translation.js:150-156 | walking `p + q` is walking `p`, then `q` from the value reached |
| TranslationTree.ResolveStopsAtFirstFailure | assets/js/translation.js:150-155 | once a segment is absent or falsy the lookup returns null, whatever follows it |
| TranslationTree.ResolveFoundIffEverySegmentFound | assets/js/translation.js:146-159 | the lookup finds a value iff it starts on a value and every segment names a truthy member of the value reached so far |
| TranslationTree.GetTranslation | assets/js/simple-lang-switcher.js:189-202 | the early-return loop of `getTranslation(obj, key)` returns exactly the recursive walk of the split key |
| TranslationTree.LookupInFallback | assets/js/translation.js:17-23 | after a failed load every lookup returns null, for every locale and key |
| TranslationTree.LookupDottedPath | assets/js/enhanced-translation.js:203-216 | looking up the dotted form of a path of member names walks exactly that path |
| MarkedElements.Rendered | assets/js/translation.js:119-121 | a found string is written as itself, a found object as "[object Object]"; a truthy value never renders as "" |
| MarkedElements.Translated | assets/js/translation.js:117-122 | given what the lookup returned, an element is kept when nothing truthy was found; otherwise a submit input gets the rendered value in `value` and keeps its text, any other element gets it as text and keeps `value` (a submit input is an element whose tag is INPUT and whose type is submit, line 118); key, tag and type never change |
| MarkedElements.Applied | assets/js/translation.js:114-123 | translation keeps an element's key and tag, and leaves an element whose key does not resolve as it was |
| MarkedElements.AppliedWritesResolved | assets/js/translation.js:117-122 | an element whose key resolves holds the translation in `value` if it is a submit input, else in its text; the other place is kept and the written string is non-empty |
| MarkedElements.AppliedAll | assets/js/translation.js:113-124 | translating the page keeps the number of marked elements and their keys in order, and leaves every element whose key does not resolve as it was |
| MarkedElements.AppliedChangesOnlyResolved | assets/js/translation.js:117 | an element changes only when its key resolves, and at most one of text and value changes |
| MarkedElements.AppliedIdempotent | assets/js/translation.js:112-124 | applying the same locale twice is the same as applying it once |
| MarkedElements.AppliedAllFallback | assets/js/enhanced-translation.js:29-37 | after a failed load, applying any locale leaves every element unchanged |
| MarkedElements.AppliedAllMissingLocale | assets/js/enhanced-translation.js:190-200 | applying a locale the dictionary lacks leaves every element unchanged; nothing is blanked |
| MarkedElements.ExampleSwitchToFrenchThenMissingLocale | assets/js/translation.js:112-124 | with "nav.home" translated, applying "fr" shows "Accueil", and then applying the missing "de" keeps "Accueil" |
| MarkedElements.TranslateElements | assets/js/enhanced-translation.js:186-201 | the in-place loop leaves the element array equal to every element translated by the per-element rule |
| LocaleSwitch.InitialLanguage | assets/js/translation.js:4 | the start-up language is the stored value when it is non-empty, otherwise "en"; it is never empty |
| LocaleSwitch.StoredLanguageSurvivesReload | assets/js/translation.js:90-91 | storing a non-empty language makes a reload start in it; storing "" makes a reload start in "en" |
| LocaleSwitch.LabelFor | assets/js/translation.js:102-108 | the label is English with the US flag iff the language is "en", French with the French flag for any other value |
| LocaleSwitch.MenuOpenAfter | assets/js/enhanced-translation.js:105-160 | the button toggles the menu, an option or outside click leaves it hidden, and only the button can open it |
| LocaleSwitch.TakesSwitch | assets/js/enhanced-translation.js:140 | an option click that a guard lets through is, under a guard, to a different language, and under the empty-or-same guard to a non-empty one; a click to a different non-empty language always gets through, and without a guard every click does |
| LocaleSwitch.Next | assets/js/simple-translation.js:65-116 | a click changes the language only to the option's language, does so whenever the guard lets it through, never under a guard when it is the current one, and under the empty-or-same guard never to "" |
| LocaleSwitch.ButtonTwiceRestores | assets/js/enhanced-translation.js:116-123 | two button clicks restore the menu and the language |
| LocaleSwitch.RunOpensOnlyByButton | assets/js/enhanced-translation.js:105-160 | after any sequence of clicks the menu is open only if it was open before or the button was clicked |
| LocaleSwitch.RunLanguageWasChosen | assets/js/simple-translation.js:86-106 | after any sequence of clicks the language is the initial one or one of the options clicked |
| LocaleSwitch.RunKeepsLanguageNonEmpty | assets/js/simple-translation.js:96-98 | with the empty-or-same guard, no sequence of clicks makes the language empty |
| Translation.HeadContent | assets/js/translation.js:126-143 | the title or description changes only when its key is non-empty and resolves, and then becomes the rendered, non-empty translation |
| Translation.HeadApplied | assets/js/translation.js:126-143 | translating the head keeps both keys, changes the title or the description only where its key resolves, and changes nothing in a locale that is undefined |
| Translation.HeadAppliedFallback | assets/js/translation.js:126-143 | after a failed load the title and description are unchanged in every language |
| Translation.TranslationManager.constructor | assets/js/translation.js:3-24 | start-up language from storage, dictionary or fallback, label for the language, menu inactive, page translated |
| Translation.TranslationManager.GetTranslation | assets/js/translation.js:146-159 | the lookup of a key in the current language |
| Translation.TranslationManager.ApplyTranslations | assets/js/translation.js:112-144 | marked elements, title and description are each translated by the shared rule |
| Translation.TranslationManager.UpdateLanguageSwitcher | assets/js/translation.js:96-110 | the label becomes the current language's |
| Translation.TranslationManager.SwitchLanguage | assets/js/translation.js:87-94 | switching to the current language changes nothing; otherwise language, stored value, label, elements and head are updated and nothing else |
| Translation.TranslationManager.DispatchClick | assets/js/translation.js:58-85 | menu and language follow `Next` with the same-language guard; storage, label and page change exactly when the language does |
| Translation.ReloadRestoresLanguage | assets/js/translation.js:4 | after switching to a non-empty language, a manager built on reload starts in it |
| Translation.StartWithoutDictionary | assets/js/translation.js:16-24 | when loading fails, start-up leaves every element and the head as they were |
| EnhancedTranslation.EnhancedTranslationManager.constructor | assets/js/enhanced-translation.js:3-38 | start-up language from storage, dictionary or fallback, menu hidden, page translated |
| EnhancedTranslation.EnhancedTranslationManager.GetTranslation | assets/js/enhanced-translation.js:203-216 | the lookup of a key in the current language |
| EnhancedTranslation.EnhancedTranslationManager.ApplyTranslations | assets/js/enhanced-translation.js:186-201 | the marked elements are translated by the shared rule |
| EnhancedTranslation.EnhancedTranslationManager.SwitchLanguage | assets/js/enhanced-translation.js:162-184 | language and stored value become the argument, unguarded; the label follows; the page is translated again |
| EnhancedTranslation.EnhancedTranslationManager.HandleClick | assets/js/enhanced-translation.js:105-160 | menu and language follow `Next` with the empty-or-same guard; storage, label and page change exactly when the language does |
| SimpleLangSwitcher.ApplyTranslations | assets/js/simple-lang-switcher.js:157-187 | with a fetched dictionary every element is translated in the given locale; a failed fetch touches no element |
| SimpleLangSwitcher.AppliesSavedLanguage | assets/js/simple-lang-switcher.js:205-206 | the saved language is applied at load exactly when the language a manager would start in is not "en", and then it is that language |
| SimpleLangSwitcher.ApplySavedLanguage | assets/js/simple-lang-switcher.js:204-209 | at load the page is translated only when the saved language is non-empty and not "en" |
| SimpleLangSwitcher.LanguageSwitcher.constructor | assets/js/simple-lang-switcher.js:4-84 | the switcher shows English with the menu hidden, whatever is stored |
| SimpleLangSwitcher.LanguageSwitcher.HandleClick | assets/js/simple-lang-switcher.js:85-133 | the button toggles, an outside click hides; every option click hides the menu, stores its language, relabels the button and applies it, without an equality guard |
| SimpleTranslation.SimpleTranslationManager.constructor | assets/js/simple-translation.js:3-13 | start-up language from storage, label for it, dropdown inactive |
| SimpleTranslation.SimpleTranslationManager.SwitchLanguage | assets/js/simple-translation.js:118-139 | language and stored value become the argument, the label follows, and nothing else changes |
| SimpleTranslation.SimpleTranslationManager.HandleClick | assets/js/simple-translation.js:65-116 | dropdown and language follow `Next` with the empty-or-same guard; storage and label change exactly when the language does |
| SimpleTranslation.ReloadRestoresLanguage | assets/js/simple-translation.js:4 | after switching to a non-empty language, a manager built on reload starts in it |

## Left out

- `assets/js/script.js` is not part of this model. It holds page chrome: navigation toggle,
  smooth scroll, scroll-spy, animations, lazy images, copy buttons, the search filter and
  logging.
- Fetching and parsing the resource, and `async`/`await`: the result is a parameter. Each
  constructor runs its `init()` to the end in one step. Clicks that arrive before the
  dictionary has loaded, while it is still `{}`, are not modelled. In `simple-lang-switcher.js` every
  option click starts its own fetch and rewrites the elements only when that fetch resolves;
  two quick clicks can resolve in either order, so the page can end in the first click's
  language while the label and the stored value name the second. `LanguageSwitcher.HandleClick`
  applies each click at once, in click order.
- Markup and logging: HTML templates, `innerHTML`, `insertAdjacentHTML`, inline styles and
  `console` calls.
- Event plumbing: `closest`, `preventDefault`, `stopPropagation`, and adding and removing
  listeners. A click is one of four target kinds, and each variant's listeners are combined
  into one method per click.
- Start-up timing: the `setTimeout(…, 1000)` fallbacks, repeated construction and the removal
  of an earlier switcher.
- A missing `.nav-menu` container: no switcher is created. `translation.js` and
  `simple-lang-switcher.js` then bind no listener at all; `enhanced-translation.js` and
  `simple-translation.js` still bind their document click handler, which finds no button,
  option, menu or dropdown and changes nothing. The model assumes the container exists.
- How marked elements sit in the DOM: the model treats them as independent records, in
  document order, each with its own text. It does not capture:
  - nesting: writing a marked element's `textContent` removes its children, so a marked
    descendant translated with it is detached and its translation is not shown;
  - an unresolved marked element whose text changes because a marked descendant was
    translated (its `textContent` includes the descendant's);
  - a `<title>` or `<meta name="description">` that itself carries `data-translate`: it is also
    one of the marked elements and is written twice in `translation.js`. `Translation.Head` is
    modelled apart from the element array, as if the two did not overlap.
- JavaScript property access beyond strings and objects:
  - indexing into a string leaf (a segment "0" or "length") is modelled as not found;
  - inherited members such as "toString" are not modelled;
  - numbers, booleans, arrays and `null` are not modelled as values of the resource.
- MarkedElements.Rendered: covers strings and plain objects only, the two kinds of value the
  tree holds.
- `simple-translation.js` finds the dropdown both as the menu's parent and by class name. The
  model assumes one switcher, so these are the same element.
