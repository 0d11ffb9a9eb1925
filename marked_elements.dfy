/** The elements of the page that carry a `data-translate` key, and the
    `applyTranslations` loop shared by the switcher variants. */
module MarkedElements {
  import opened TranslationTree

  /** A marked element: its translation key, the two attributes that decide
      where a translation goes, and the two places it can go. */
  datatype Element = Element(key: string, tagName: string, inputType: string, text: string, value: string)

  /** Whether a translation goes to `value` rather than to the text: only for
      an element whose tag is exactly INPUT and whose type is exactly submit. */
  predicate IsSubmitInput(e: Element) {
    e.tagName == "INPUT" && e.inputType == "submit"
  }

  /** The string a found value becomes when assigned to `textContent` or
      `value`: a string is itself, a plain object becomes "[object Object]". */
  function Rendered(t: Tree): (s: string)
    ensures Truthy(t) ==> s != ""
    ensures t.Leaf? ==> s == t.text
    ensures t.Node? ==> s == "[object Object]"
  {
    match t
    case Leaf(text) => text
    case Node(_) => "[object Object]"
  }

  /** One element of the `forEach` of `applyTranslations`, given what
      `getTranslation` returned for its key. */
  function Translated(e: Element, found: Option<Tree>): (r: Element)
    ensures r.key == e.key && r.tagName == e.tagName && r.inputType == e.inputType
    ensures !(found.Some? && Truthy(found.value)) ==> r == e
    ensures found.Some? && Truthy(found.value) && IsSubmitInput(e) ==>
              r.value == Rendered(found.value) && r.text == e.text
    ensures found.Some? && Truthy(found.value) && !IsSubmitInput(e) ==>
              r.text == Rendered(found.value) && r.value == e.value
  {
    if found.Some? && Truthy(found.value) then
      if IsSubmitInput(e) then e.(value := Rendered(found.value)) else e.(text := Rendered(found.value))
    else e
  }

  /** The element after translation against the locale tree `obj`. */
  function Applied(e: Element, obj: Option<Tree>): (r: Element)
    ensures r.key == e.key && r.tagName == e.tagName && r.inputType == e.inputType
    ensures Resolve(obj, Split(e.key)).None? ==> r == e
  {
    Translated(e, Resolve(obj, Split(e.key)))
  }

  /** Every element of a page after translation against `obj`. */
  function AppliedAll(elements: seq<Element>, obj: Option<Tree>): (r: seq<Element>)
    ensures |r| == |elements|
    ensures forall i :: 0 <= i < |r| ==> r[i].key == elements[i].key
    ensures forall i :: 0 <= i < |r| && Resolve(obj, Split(elements[i].key)).None? ==> r[i] == elements[i]
  {
    seq(|elements|, i requires 0 <= i < |elements| => Applied(elements[i], obj))
  }

  /** An element whose key resolves ends up holding the translation: in
      `value` for a submit input, in the text otherwise; the other place is
      kept, and what is written is never the empty string. */
  lemma AppliedWritesResolved(e: Element, obj: Option<Tree>, t: Tree)
    requires Resolve(obj, Split(e.key)) == Some(t)
    ensures IsSubmitInput(e) ==> Applied(e, obj) == e.(value := Rendered(t))
    ensures !IsSubmitInput(e) ==> Applied(e, obj) == e.(text := Rendered(t))
    ensures Rendered(t) != ""
  {
  }

  /** An element is changed only when its key resolves. */
  lemma AppliedChangesOnlyResolved(e: Element, obj: Option<Tree>)
    ensures Applied(e, obj) != e ==> Resolve(obj, Split(e.key)).Some?
    ensures Applied(e, obj).text == e.text || Applied(e, obj).value == e.value
  {
  }

  /** Applying the same locale twice is the same as applying it once. */
  lemma AppliedIdempotent(e: Element, obj: Option<Tree>)
    ensures Applied(Applied(e, obj), obj) == Applied(e, obj)
  {
  }

  /** After a failed load, applying any locale leaves every element as it was. */
  lemma AppliedAllFallback(elements: seq<Element>, lang: string)
    ensures AppliedAll(elements, LocaleTree(Loaded(None), lang)) == elements
  {
    forall i | 0 <= i < |elements|
      ensures AppliedAll(elements, LocaleTree(Loaded(None), lang))[i] == elements[i]
    {
      LookupInFallback(lang, elements[i].key);
    }
  }

  /** Applying a locale the dictionary does not have leaves every element as
      it was: nothing is blanked. */
  lemma AppliedAllMissingLocale(elements: seq<Element>, dict: Dictionary, lang: string)
    requires lang !in dict
    ensures AppliedAll(elements, LocaleTree(dict, lang)) == elements
  {
    forall i | 0 <= i < |elements|
      ensures AppliedAll(elements, LocaleTree(dict, lang))[i] == elements[i]
    {
    }
  }

  /** A worked example: with "nav.home" translated in "en" and "fr",
      applying "fr" shows "Accueil", and switching on to "de", which the
      dictionary lacks, keeps "Accueil". */
  lemma ExampleSwitchToFrenchThenMissingLocale(e: Element)
    requires e.key == "nav.home" && !IsSubmitInput(e)
    ensures var dict := map["en" := Node(map["nav" := Node(map["home" := Leaf("Home")])]),
                            "fr" := Node(map["nav" := Node(map["home" := Leaf("Accueil")])])];
            var fr := Applied(e, LocaleTree(dict, "fr"));
            fr.text == "Accueil" && Applied(fr, LocaleTree(dict, "de")) == fr
  {
    var dict := map["en" := Node(map["nav" := Node(map["home" := Leaf("Home")])]),
                    "fr" := Node(map["nav" := Node(map["home" := Leaf("Accueil")])])];
    var path := ["nav", "home"];
    assert Split("nav.home") == path by {
      assert path[1..] == ["home"];
      assert Join(path) == "nav" + "." + "home" == "nav.home";
      SplitJoin(path);
    }
    var nav := Node(map["home" := Leaf("Accueil")]);
    assert Descend(LocaleTree(dict, "fr"), "nav") == Some(nav);
    assert Descend(Some(nav), "home") == Some(Leaf("Accueil"));
    assert Resolve(LocaleTree(dict, "fr"), path) == Some(Leaf("Accueil"));
    AppliedWritesResolved(e, LocaleTree(dict, "fr"), Leaf("Accueil"));
    var fr := Applied(e, LocaleTree(dict, "fr"));
    assert LocaleTree(dict, "de") == None;
    assert Resolve(None, Split(fr.key)) == None;
  }

  /** The `forEach` of `applyTranslations`: each marked element whose key
      resolves is rewritten in place; the others are left untouched. */
  method TranslateElements(elements: array<Element>, obj: Option<Tree>)
    modifies elements
    ensures elements[..] == AppliedAll(old(elements[..]), obj)
  {
    for i := 0 to elements.Length
      invariant forall j :: 0 <= j < i ==> elements[j] == Applied(old(elements[j]), obj)
      invariant forall j :: i <= j < elements.Length ==> elements[j] == old(elements[j])
    {
      var element := elements[i];
      var translation := GetTranslation(obj, element.key);
      if translation.Some? && Truthy(translation.value) {
        if IsSubmitInput(element) {
          elements[i] := element.(value := Rendered(translation.value));
        } else {
          elements[i] := element.(text := Rendered(translation.value));
        }
      }
    }
  }
}
