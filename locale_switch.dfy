/** The active language, its persisted copy under the storage key
    'raghim-language', the switcher button's label, and the dropdown menu's
    response to clicks, shared by the switcher variants. */
module LocaleSwitch {
  import opened TranslationTree

  /** `localStorage.getItem('raghim-language') || 'en'`: the stored value
      when it is a non-empty string, else "en". */
  function InitialLanguage(stored: Option<string>): (lang: string)
    ensures lang != ""
    ensures lang == "en" || stored == Some(lang)
    ensures stored.Some? && stored.value != "" ==> lang == stored.value
  {
    if stored.Some? && stored.value != "" then stored.value else "en"
  }

  /** A reload restores `current`: reading the stored value back gives it. */
  predicate RestoredOnReload(current: string, stored: Option<string>) {
    InitialLanguage(stored) == current
  }

  /** Storing a non-empty language makes a reload come back to it; storing
      the empty string makes a reload come back to "en". */
  lemma StoredLanguageSurvivesReload(lang: string)
    ensures lang != "" ==> RestoredOnReload(lang, Some(lang))
    ensures lang == "" ==> InitialLanguage(Some(lang)) == "en"
  {
  }

  /** The flag and the text shown on the switcher button. */
  datatype Label = Label(flag: string, text: string)

  const EnglishLabel := Label("\U{1F1FA}\U{1F1F8}", "English")
  const FrenchLabel := Label("\U{1F1EB}\U{1F1F7}", "Fran\U{00E7}ais")

  /** The button label for a language: English for "en", French for any
      other value, known or not. */
  function LabelFor(lang: string): (shown: Label)
    ensures shown == EnglishLabel <==> lang == "en"
    ensures shown == FrenchLabel <==> lang != "en"
  {
    if lang == "en" then EnglishLabel else FrenchLabel
  }

  /** What a click hit: the switcher button, a language option (its
      `data-lang`), something else inside the switcher, or something outside. */
  datatype Click = Button | LanguageOption(lang: string) | InsideOther | Outside

  /** Whether the menu is shown after a click, in every variant: the button
      toggles it, an option or an outside click hides it, any other click
      inside the switcher leaves it. */
  function MenuOpenAfter(open: bool, c: Click): (r: bool)
    ensures c.Button? ==> r == !open
    ensures !c.Button? ==> (r ==> open)
    ensures c.LanguageOption? || c.Outside? ==> !r
    ensures c.InsideOther? ==> r == open
  {
    match c
    case Button => !open
    case LanguageOption(_) => false
    case InsideOther => open
    case Outside => false
  }

  /** When an option click changes the language: always, only to a
      different language, or only to a non-empty different language. */
  datatype SwitchGuard = Unguarded | SkipSame | SkipEmptyOrSame

  predicate TakesSwitch(guard: SwitchGuard, current: string, lang: string)
    ensures TakesSwitch(guard, current, lang) && !guard.Unguarded? ==> lang != current
    ensures TakesSwitch(guard, current, lang) && guard.SkipEmptyOrSame? ==> lang != ""
    ensures !guard.SkipEmptyOrSame? && (guard.Unguarded? || lang != current) ==> TakesSwitch(guard, current, lang)
    ensures lang != current && lang != "" ==> TakesSwitch(guard, current, lang)
  {
    match guard
    case Unguarded => true
    case SkipSame => lang != current
    case SkipEmptyOrSame => lang != "" && lang != current
  }

  /** The state a dropdown click acts on. */
  datatype MenuState = MenuState(open: bool, language: string)

  /** The dropdown state machine: the menu as MenuOpenAfter says, and the
      language replaced by the option's when the guard lets it through. */
  function Next(guard: SwitchGuard, s: MenuState, c: Click): (r: MenuState)
    ensures r.open == MenuOpenAfter(s.open, c)
    ensures r.language != s.language ==> c.LanguageOption? && r.language == c.lang
    ensures c.LanguageOption? && TakesSwitch(guard, s.language, c.lang) ==> r.language == c.lang
    ensures guard != Unguarded && c.LanguageOption? && c.lang == s.language ==> r == MenuState(false, s.language)
    ensures guard == SkipEmptyOrSame && s.language != "" ==> r.language != ""
  {
    var language := if c.LanguageOption? && TakesSwitch(guard, s.language, c.lang) then c.lang else s.language;
    MenuState(MenuOpenAfter(s.open, c), language)
  }

  /** Two button clicks in a row restore the state. */
  lemma ButtonTwiceRestores(guard: SwitchGuard, s: MenuState)
    ensures Next(guard, Next(guard, s, Button), Button) == s
  {
  }

  /** The state after the clicks of `clicks`, handled one by one. */
  function Run(guard: SwitchGuard, s: MenuState, clicks: seq<Click>): MenuState
    decreases |clicks|
  {
    if clicks == [] then s else Run(guard, Next(guard, s, clicks[0]), clicks[1..])
  }

  /** The menu is open after a run only if it was open before or the button
      was clicked. */
  lemma {:induction false} RunOpensOnlyByButton(guard: SwitchGuard, s: MenuState, clicks: seq<Click>)
    ensures Run(guard, s, clicks).open ==> s.open || Button in clicks
    decreases |clicks|
  {
    if clicks != [] {
      RunOpensOnlyByButton(guard, Next(guard, s, clicks[0]), clicks[1..]);
      assert clicks == [clicks[0]] + clicks[1..];
    }
  }

  /** The language after a run is the one before it or one of the options
      clicked. */
  lemma {:induction false} RunLanguageWasChosen(guard: SwitchGuard, s: MenuState, clicks: seq<Click>)
    ensures var r := Run(guard, s, clicks);
            r.language == s.language || LanguageOption(r.language) in clicks
    decreases |clicks|
  {
    if clicks != [] {
      RunLanguageWasChosen(guard, Next(guard, s, clicks[0]), clicks[1..]);
      assert clicks == [clicks[0]] + clicks[1..];
    }
  }

  /** With the empty-or-same guard the language never becomes empty, so a
      reload always restores it. */
  lemma {:induction false} RunKeepsLanguageNonEmpty(s: MenuState, clicks: seq<Click>)
    requires s.language != ""
    ensures Run(SkipEmptyOrSame, s, clicks).language != ""
    decreases |clicks|
  {
    if clicks != [] {
      RunKeepsLanguageNonEmpty(Next(SkipEmptyOrSame, s, clicks[0]), clicks[1..]);
    }
  }
}
