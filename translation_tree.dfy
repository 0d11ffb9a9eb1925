/** The translations resource and the dotted-path lookup shared by every
    variant of the language switcher (`getTranslation`). */
module TranslationTree {

  datatype Option<T> = None | Some(value: T)

  /** A value of the translations resource: a string, or an object whose
      members are again strings or objects. */
  datatype Tree = Leaf(text: string) | Node(children: map<string, Tree>)

  /** The parsed resource: one tree per locale ("en", "fr", ...). */
  type Dictionary = map<string, Tree>

  /** JavaScript truthiness of a tree value: the empty string is falsy,
      every other string and every object (even an empty one) is truthy. */
  predicate Truthy(t: Tree)
    ensures t.Node? ==> Truthy(t)
    ensures t.Leaf? ==> (Truthy(t) <==> t.text != "")
  {
    t != Leaf("")
  }

  /** `key.split('.')`: the pieces between the dots, empty pieces included. */
  function Split(key: string): (parts: seq<string>)
    ensures |parts| >= 1
    ensures forall i :: 0 <= i < |parts| ==> '.' !in parts[i]
    decreases |key|
  {
    if key == [] then [""]
    else
      var rest := Split(key[1..]);
      if key[0] == '.' then [""] + rest
      else [[key[0]] + rest[0]] + rest[1..]
  }

  /** `parts.join('.')`, the inverse of Split. */
  function Join(parts: seq<string>): string
    requires |parts| >= 1
  {
    if |parts| == 1 then parts[0] else parts[0] + "." + Join(parts[1..])
  }

  /** Splitting a key and joining the pieces gives the key back. */
  lemma {:induction false} JoinSplit(key: string)
    ensures Join(Split(key)) == key
    decreases |key|
  {
    if key != [] {
      JoinSplit(key[1..]);
      var rest := Split(key[1..]);
      if key[0] == '.' {
        assert Split(key) == [""] + rest;
        assert ([""] + rest)[1..] == rest;
        assert Join(Split(key)) == "" + "." + Join(rest);
      } else {
        var parts := Split(key);
        assert parts == [[key[0]] + rest[0]] + rest[1..];
        assert parts[1..] == rest[1..];
        if |rest| == 1 {
          assert Join(parts) == [key[0]] + rest[0];
        } else {
          assert Join(parts) == [key[0]] + rest[0] + "." + Join(rest[1..]);
          assert Join(rest) == rest[0] + "." + Join(rest[1..]);
        }
      }
    }
  }

  /** A dot-free prefix glues onto the first piece of what follows it. */
  lemma {:induction false} SplitDotFreePrefix(prefix: string, rest: string)
    requires '.' !in prefix
    ensures Split(prefix + rest) == [prefix + Split(rest)[0]] + Split(rest)[1..]
    decreases |prefix|
  {
    if prefix != [] {
      SplitDotFreePrefix(prefix[1..], rest);
      assert (prefix + rest)[1..] == prefix[1..] + rest;
      assert (prefix + rest)[0] == prefix[0];
      assert [prefix[0]] + (prefix[1..] + Split(rest)[0]) == prefix + Split(rest)[0];
    } else {
      var parts := Split(rest);
      assert prefix + rest == rest && prefix + parts[0] == parts[0];
      assert parts == [parts[0]] + parts[1..];
    }
  }

  /** Joining dot-free pieces and splitting the result gives the pieces back:
      every path of object members is reachable by exactly one dotted key. */
  lemma {:induction false} SplitJoin(parts: seq<string>)
    requires |parts| >= 1
    requires forall i :: 0 <= i < |parts| ==> '.' !in parts[i]
    ensures Split(Join(parts)) == parts
    decreases |parts|
  {
    if |parts| == 1 {
      SplitDotFreePrefix(parts[0], "");
      assert parts[0] + "" == parts[0];
    } else {
      var tail := Join(parts[1..]);
      SplitJoin(parts[1..]);
      assert parts[0] + "." + tail == parts[0] + ("." + tail);
      SplitDotFreePrefix(parts[0], "." + tail);
      assert ("." + tail)[1..] == tail;
      assert Split("." + tail) == [""] + parts[1..];
      assert parts[0] + "" == parts[0];
      assert parts == [parts[0]] + parts[1..];
    }
  }

  /** The tree of one locale, `translations[lang]`; None where it is undefined. */
  function LocaleTree(dict: Dictionary, lang: string): (r: Option<Tree>)
    ensures r.Some? <==> lang in dict
    ensures r.Some? ==> r.value == dict[lang]
  {
    if lang in dict then Some(dict[lang]) else None
  }

  /** One iteration of the walk: `translation && translation[k]`. A string
      value is not descended into (see the README). */
  function Descend(cur: Option<Tree>, segment: string): (next: Option<Tree>)
    ensures next.Some? ==> Truthy(next.value)
    ensures next.Some? ==> cur.Some? && cur.value.Node? && segment in cur.value.children
                           && next.value == cur.value.children[segment]
    ensures (cur.Some? && cur.value.Node? && segment in cur.value.children &&
             Truthy(cur.value.children[segment])) ==> next == Some(cur.value.children[segment])
  {
    match cur
    case Some(Node(children)) =>
      if segment in children && Truthy(children[segment]) then Some(children[segment]) else None
    case _ => None
  }

  /** The value reached by walking `path` from `cur`; None once a step fails.
      Once a step has failed the walk stays failed, and a walk of at least
      one segment never ends on a falsy value: an empty-string leaf counts as
      "not found". */
  function Resolve(cur: Option<Tree>, path: seq<string>): (r: Option<Tree>)
    ensures r.Some? ==> cur.Some?
    ensures path != [] && r.Some? ==> Truthy(r.value)
    decreases |path|
  {
    if path == [] then cur else Resolve(Descend(cur, path[0]), path[1..])
  }

  /** `getTranslation(key)` against `translations[lang]`: a locale missing
      from the dictionary finds nothing, and what is found is truthy. */
  function Lookup(dict: Dictionary, lang: string, key: string): (r: Option<Tree>)
    ensures r.Some? ==> lang in dict && Truthy(r.value)
  {
    Resolve(LocaleTree(dict, lang), Split(key))
  }

  /** The dictionary used when the resource cannot be fetched or parsed. */
  function Fallback(): (d: Dictionary)
    ensures d.Keys == {"en", "fr"}
    ensures forall lang :: lang in d ==> d[lang] == Node(map[])
  {
    map["en" := Node(map[]), "fr" := Node(map[])]
  }

  /** `this.translations` after `loadTranslations`: the parsed resource, or
      the fallback when loading failed. */
  function Loaded(fetched: Option<Dictionary>): (dict: Dictionary)
    ensures fetched.Some? ==> dict == fetched.value
    ensures fetched.None? ==> dict.Keys == {"en", "fr"}
  {
    match fetched
    case Some(d) => d
    case None => Fallback()
  }

  /** Walking `p + q` is walking `p`, then `q` from where `p` ended. */
  lemma {:induction false} ResolveAppend(cur: Option<Tree>, p: seq<string>, q: seq<string>)
    ensures Resolve(cur, p + q) == Resolve(Resolve(cur, p), q)
    decreases |p|
  {
    if p == [] {
      assert p + q == q;
    } else {
      assert (p + q)[0] == p[0];
      assert (p + q)[1..] == p[1..] + q;
      ResolveAppend(Descend(cur, p[0]), p[1..], q);
    }
  }

  /** Walking one more segment is one more Descend. */
  lemma ResolvePrefixStep(cur: Option<Tree>, path: seq<string>, i: nat)
    requires i < |path|
    ensures Resolve(cur, path[..i + 1]) == Descend(Resolve(cur, path[..i]), path[i])
  {
    assert path[..i + 1] == path[..i] + [path[i]];
    ResolveAppend(cur, path[..i], [path[i]]);
  }

  /** The walk returns "not found" at the first segment that is absent or
      falsy, whatever the segments after it. */
  lemma ResolveStopsAtFirstFailure(cur: Option<Tree>, path: seq<string>, i: nat)
    requires i < |path|
    requires Descend(Resolve(cur, path[..i]), path[i]).None?
    ensures Resolve(cur, path) == None
  {
    ResolvePrefixStep(cur, path, i);
    assert path == path[..i + 1] + path[i + 1..];
    ResolveAppend(cur, path[..i + 1], path[i + 1..]);
  }

  /** The walk finds a value exactly when it starts on a value and every
      segment in turn names a truthy member of the value reached so far. */
  lemma ResolveFoundIffEverySegmentFound(cur: Option<Tree>, path: seq<string>)
    ensures Resolve(cur, path).Some? <==>
            cur.Some? && forall i :: 0 <= i < |path| ==> Descend(Resolve(cur, path[..i]), path[i]).Some?
  {
    if cur.None? {
    } else if forall i :: 0 <= i < |path| ==> Descend(Resolve(cur, path[..i]), path[i]).Some? {
      var j := 0;
      assert path[..0] == [];
      while j < |path|
        invariant 0 <= j <= |path|
        invariant Resolve(cur, path[..j]).Some?
      {
        ResolvePrefixStep(cur, path, j);
        j := j + 1;
      }
      assert path[..|path|] == path;
    } else {
      var i :| 0 <= i < |path| && Descend(Resolve(cur, path[..i]), path[i]).None?;
      ResolveStopsAtFirstFailure(cur, path, i);
    }
  }

  /** The walk loop of `getTranslation(obj, key)`: split the key, then step
      member by member, returning None at the first absent or falsy member. */
  method GetTranslation(obj: Option<Tree>, key: string) returns (r: Option<Tree>)
    ensures r == Resolve(obj, Split(key))
  {
    var keys := Split(key);
    var translation := obj;
    var i := 0;
    while i < |keys|
      invariant 0 <= i <= |keys|
      invariant Resolve(translation, keys[i..]) == Resolve(obj, keys)
    {
      var k := keys[i];
      assert keys[i..][0] == k && keys[i..][1..] == keys[i + 1..];
      if translation.Some? && translation.value.Node? && k in translation.value.children
         && Truthy(translation.value.children[k]) {
        translation := Some(translation.value.children[k]);
      } else {
        return None;
      }
      i := i + 1;
    }
    assert keys[|keys|..] == [];
    r := translation;
  }

  /** After a failed load every lookup is "not found", in every locale. */
  lemma LookupInFallback(lang: string, key: string)
    ensures Lookup(Loaded(None), lang, key) == None
  {
    var path := Split(key);
    assert Descend(LocaleTree(Fallback(), lang), path[0]) == None;
  }

  /** Looking up the dotted form of a path of member names walks exactly
      that path. */
  lemma LookupDottedPath(dict: Dictionary, lang: string, path: seq<string>)
    requires |path| >= 1
    requires forall i :: 0 <= i < |path| ==> '.' !in path[i]
    ensures Lookup(dict, lang, Join(path)) == Resolve(LocaleTree(dict, lang), path)
  {
    SplitJoin(path);
  }
}
