/** Looking up emoji by name and names by emoji, in src/helpers/emoji.ts. */
module EmojiLookup {
  import opened Prelude
  import opened Lists
  import opened OrderedMaps
  import opened EmojiIndex

  /** For every value of `f`, the first of the names that has it. */
  function FirstWith<K(==)>(names: seq<Name>, f: Name -> K): map<K, Name> {
    if names == [] then map[]
    else
      var earlier, last := FirstWith(names[..|names| - 1], f), names[|names| - 1];
      if f(last) in earlier then earlier else earlier[f(last) := last]
  }

  lemma {:induction false} FirstWithIsFirst<K>(names: seq<Name>, f: Name -> K)
    ensures forall i :: 0 <= i < |names| ==> f(names[i]) in FirstWith(names, f)
    ensures forall k :: k in FirstWith(names, f) ==>
              exists i :: 0 <= i < |names| && names[i] == FirstWith(names, f)[k] && f(names[i]) == k
                          && forall j :: 0 <= j < i ==> f(names[j]) != k
  {
    if names != [] {
      var init, n := names[..|names| - 1], |names| - 1;
      FirstWithIsFirst(init, f);
      forall k | k in FirstWith(names, f)
        ensures exists i :: 0 <= i < |names| && names[i] == FirstWith(names, f)[k] && f(names[i]) == k
                            && forall j :: 0 <= j < i ==> f(names[j]) != k
      {
        if k in FirstWith(init, f) {
          var i :| 0 <= i < |init| && init[i] == FirstWith(init, f)[k] && f(init[i]) == k
                   && forall j :: 0 <= j < i ==> f(init[j]) != k;
          assert names[i] == FirstWith(names, f)[k] && f(names[i]) == k
                 && forall j :: 0 <= j < i ==> f(names[j]) != k;
        } else {
          assert names[n] == FirstWith(names, f)[k] && f(names[n]) == k
                 && forall j :: 0 <= j < n ==> f(names[j]) != k;
        }
      }
    }
  }

  lemma FirstWithNext<K>(names: seq<Name>, f: Name -> K, name: Name)
    ensures FirstWith(names + [name], f) ==
            if f(name) in FirstWith(names, f) then FirstWith(names, f) else FirstWith(names, f)[f(name) := name]
    ensures FirstWith([], f) == map[]
  {
    assert (names + [name])[..|names|] == names;
  }

  // ---- The tables -----------------------------------------------------------------------------

  /** SHORTNAMES (names in order, and their emoji), NAMES_BY_EMOJI and BY_SEARCH_KEY. */
  datatype Tables = Tables(names: seq<Name>, emoji: map<Name, Emoji>, nameOf: map<Emoji, Name>,
                           bySearchKey: map<JsString, Emoji>)

  predicate IsSeparator(c: CodeUnit) { c == 45 || c == 95 || IsWhite(c) }

  /** `fold` is `toLowerCase`. */
  function SearchKey(fold: JsString -> JsString, name: Name): JsString { Filter(c => !IsSeparator(c), fold(name)) }

  function EmojiOf(emoji: map<Name, Emoji>): Name -> Emoji { n => if n in emoji then emoji[n] else [] }

  function KeyOf(fold: JsString -> JsString): Name -> JsString { n => SearchKey(fold, n) }

  ghost predicate Built(t: Tables, fold: JsString -> JsString) {
    && Distinct(t.names)
    && (forall n :: n in t.names <==> n in t.emoji)
    && t.nameOf == FirstWith(t.names, EmojiOf(t.emoji))
    && var firsts := FirstWith(t.names, KeyOf(fold));
       && t.bySearchKey.Keys == firsts.Keys
       && forall k :: k in firsts ==> t.bySearchKey[k] == EmojiOf(t.emoji)(firsts[k])
  }

  /** Over `shortnames`, keep the first entry for each key. */
  method BuildTables(shortnames: OrderedMap<Name, Emoji>, fold: JsString -> JsString) returns (t: Tables)
    requires shortnames.Valid()
    ensures Built(t, fold) && t.names == shortnames.keys && t.emoji == shortnames.entries
  {
    hide FirstWith, SearchKey;
    var names, emoji := shortnames.keys, shortnames.entries;
    ghost var emojiOf, keyOf := EmojiOf(emoji), KeyOf(fold);
    FirstWithNext([], emojiOf, []);
    FirstWithNext([], keyOf, []);
    var namesByEmoji := new OrderedMap<Emoji, Name>();
    var bySearchKey := new OrderedMap<JsString, Emoji>();
    ghost var firsts := map[];
    for i := 0 to |names|
      invariant fresh(namesByEmoji) && fresh(bySearchKey) && namesByEmoji.Valid() && bySearchKey.Valid()
      invariant namesByEmoji.entries == FirstWith(names[..i], emojiOf)
      invariant firsts == FirstWith(names[..i], keyOf)
      invariant bySearchKey.entries.Keys == firsts.Keys
      invariant forall k :: k in firsts ==> bySearchKey.entries[k] == emojiOf(firsts[k])
    {
      assert names[..i + 1] == names[..i] + [names[i]];
      FirstWithNext(names[..i], emojiOf, names[i]);
      FirstWithNext(names[..i], keyOf, names[i]);
      assert names[i] in emoji;
      if emoji[names[i]] !in namesByEmoji.entries {
        namesByEmoji.Set(emoji[names[i]], names[i]);
      }
      var key := SearchKey(fold, names[i]);
      if key !in bySearchKey.entries {
        bySearchKey.Set(key, emoji[names[i]]);
        firsts := firsts[key := names[i]];
      }
    }
    assert names[..|names|] == names;
    t := Tables(names, emoji, namesByEmoji.entries, bySearchKey.entries);
  }

  // ---- Lookups --------------------------------------------------------------------------------

  function Utf8ToShortname(t: Tables, emoji: Emoji): Option<Name> {
    if emoji in t.nameOf then Some(t.nameOf[emoji]) else None
  }

  const TONE: JsString := [95, 116, 111, 110, 101]

  predicate IsLineTerminator(c: CodeUnit) { c == 10 || c == 13 || c == 0x2028 || c == 0x2029 }

  /** `/^(.+)_tone([1-5])$/`: what stands before the suffix, and the skin tone. */
  function Toned(name: Name): Option<(Name, nat)> {
    if |name| < 7 then None
    else
      var base, suffix, digit := name[..|name| - 6], name[|name| - 6..|name| - 1], name[|name| - 1];
      if suffix != TONE || exists i :: 0 <= i < |base| && IsLineTerminator(base[i]) then None
      else if digit == 49 then Some((base, 1))
      else if digit == 50 then Some((base, 2))
      else if digit == 51 then Some((base, 3))
      else if digit == 52 then Some((base, 4))
      else if digit == 53 then Some((base, 5))
      else None
  }

  /** `render` is what the library makes of `:name::skin-tone-n:`; `None` when it leaves that as it is. */
  function ShortnameToUtf8(t: Tables, fold: JsString -> JsString, render: (Name, nat) -> Option<Emoji>,
                           shortname: Name): Option<Emoji> {
    var name := fold(shortname);
    var toned := Toned(name);
    if name in t.emoji then Some(t.emoji[name])
    else if toned.Some? && toned.value.0 in t.emoji then render(toned.value.0, toned.value.1 + 1)
    else
      var key := SearchKey(fold, name);
      if key in t.bySearchKey then Some(t.bySearchKey[key]) else None
  }

  lemma NameLeadsBack(t: Tables, fold: JsString -> JsString, emoji: Emoji)
    requires Built(t, fold) && emoji in t.nameOf
    ensures t.nameOf[emoji] in t.emoji && t.emoji[t.nameOf[emoji]] == emoji
  {
    var f := EmojiOf(t.emoji);
    FirstWithIsFirst(t.names, f);
    hide FirstWith;
    var i :| 0 <= i < |t.names| && t.names[i] == t.nameOf[emoji] && f(t.names[i]) == emoji;
    assert t.names[i] in t.names;
  }

  /** An emoji has a name exactly when the library names it, and leads back from its name. */
  lemma NameOfEmoji(t: Tables, fold: JsString -> JsString, emoji: Emoji)
    requires Built(t, fold)
    ensures Utf8ToShortname(t, emoji).Some? <==> exists n :: n in t.emoji && t.emoji[n] == emoji
    ensures var name := Utf8ToShortname(t, emoji);
            name.Some? ==> name.value in t.emoji && t.emoji[name.value] == emoji
  {
    hide FirstWith;
    if emoji in t.nameOf {
      NameLeadsBack(t, fold, emoji);
    }
    if exists n :: n in t.emoji && t.emoji[n] == emoji {
      var n :| n in t.emoji && t.emoji[n] == emoji;
      var i :| 0 <= i < |t.names| && t.names[i] == n;
      FirstWithIsFirst(t.names, EmojiOf(t.emoji));
      assert EmojiOf(t.emoji)(t.names[i]) in t.nameOf;
    }
  }

  lemma NamesAreInjective(t: Tables, fold: JsString -> JsString, a: Emoji, b: Emoji)
    requires Built(t, fold) && Utf8ToShortname(t, a).Some? && Utf8ToShortname(t, a) == Utf8ToShortname(t, b)
    ensures a == b
  {
    NameOfEmoji(t, fold, a);
    NameOfEmoji(t, fold, b);
  }

  /** Every name of the library, however its case, resolves to its emoji: aliases too. */
  lemma KnownNameResolves(t: Tables, fold: JsString -> JsString, render: (Name, nat) -> Option<Emoji>,
                          shortname: Name, name: Name)
    requires name in t.emoji && fold(shortname) == name
    ensures ShortnameToUtf8(t, fold, render, shortname) == Some(t.emoji[name])
  {
  }

  /** The name an emoji is best known by resolves to that emoji again. */
  lemma NameResolves(t: Tables, fold: JsString -> JsString, render: (Name, nat) -> Option<Emoji>, emoji: Emoji)
    requires Built(t, fold) && Utf8ToShortname(t, emoji).Some?
    requires fold(Utf8ToShortname(t, emoji).value) == Utf8ToShortname(t, emoji).value
    ensures ShortnameToUtf8(t, fold, render, Utf8ToShortname(t, emoji).value) == Some(emoji)
  {
    NameOfEmoji(t, fold, emoji);
  }

  /** `base_tone1` to `base_tone5`, as the picker spells skin tones; the library counts them from 2. */
  lemma ToneResolves(t: Tables, fold: JsString -> JsString, render: (Name, nat) -> Option<Emoji>,
                     shortname: Name, base: Name, tone: nat)
    requires base in t.emoji && base != [] && forall i :: 0 <= i < |base| ==> base[i] !in {0xA, 0xD, 0x2028, 0x2029}
    requires 1 <= tone <= 5 && fold(shortname) !in t.emoji
    requires fold(shortname) == base + [95, 116, 111, 110, 101] + [[49, 50, 51, 52, 53][tone - 1]]
    ensures ShortnameToUtf8(t, fold, render, shortname) == render(base, tone + 1)
  {
    ToneComesApart(base, tone);
    hide Toned, SearchKey;
  }

  lemma ToneComesApart(base: Name, tone: nat)
    requires base != [] && forall i :: 0 <= i < |base| ==> !IsLineTerminator(base[i])
    requires 1 <= tone <= 5
    ensures Toned(base + [95, 116, 111, 110, 101] + [[49, 50, 51, 52, 53][tone - 1]]) == Some((base, tone))
  {
    hide IsLineTerminator;
    var name: Name := base + [95, 116, 111, 110, 101] + [[49, 50, 51, 52, 53][tone - 1]];
    assert name[..|base|] == base && name[|base|..|base| + 5] == TONE;
    assert name[|base| + 5] == [49, 50, 51, 52, 53][tone - 1];
  }

  /** Nothing else is read as a tone: no other suffix or digit, no empty name, and no name of several lines. */
  lemma OnlyTonesAreToned(name: Name)
    requires Toned(name).Some?
    ensures var (base, tone) := Toned(name).value;
            && 1 <= tone <= 5 && base != []
            && name == base + [95, 116, 111, 110, 101] + [[49, 50, 51, 52, 53][tone - 1]]
            && forall i :: 0 <= i < |base| ==> base[i] !in {0xA, 0xD, 0x2028, 0x2029}
  {
    var base, suffix, digit := name[..|name| - 6], name[|name| - 6..|name| - 1], name[|name| - 1];
    assert name == base + suffix + [digit];
    assert suffix == TONE;
  }

  /** What is neither a name nor toned resolves to the first name with the same search key, if any. */
  lemma OtherSpellingsResolve(t: Tables, fold: JsString -> JsString, render: (Name, nat) -> Option<Emoji>,
                              shortname: Name)
    requires Built(t, fold) && fold(shortname) !in t.emoji
    requires Toned(fold(shortname)).None? || Toned(fold(shortname)).value.0 !in t.emoji
    ensures var key := SearchKey(fold, fold(shortname));
            match ShortnameToUtf8(t, fold, render, shortname)
            case None => forall i :: 0 <= i < |t.names| ==> SearchKey(fold, t.names[i]) != key
            case Some(emoji) =>
              exists i :: 0 <= i < |t.names| && SearchKey(fold, t.names[i]) == key
                          && t.names[i] in t.emoji && t.emoji[t.names[i]] == emoji
                          && forall j :: 0 <= j < i ==> SearchKey(fold, t.names[j]) != key
  {
    hide Toned;
    var key := SearchKey(fold, fold(shortname));
    FirstWithIsFirst(t.names, KeyOf(fold));
    var firsts := FirstWith(t.names, KeyOf(fold));
    if key in firsts {
      var i :| 0 <= i < |t.names| && t.names[i] == firsts[key] && KeyOf(fold)(t.names[i]) == key
               && forall j :: 0 <= j < i ==> KeyOf(fold)(t.names[j]) != key;
      assert t.names[i] in t.names;
    } else {
      forall i | 0 <= i < |t.names| ensures SearchKey(fold, t.names[i]) != key {
        assert KeyOf(fold)(t.names[i]) in firsts;
      }
    }
  }

  // ---- Search keys ----------------------------------------------------------------------------

  /** A separator anywhere in a name makes no difference to its search key; any other character does. */
  lemma SeparatorsAreIgnored(fold: JsString -> JsString, name: Name, other: Name, u: JsString, c: CodeUnit, v: JsString)
    requires fold(name) == u + [c] + v && fold(other) == u + v
    ensures SearchKey(fold, name) == SearchKey(fold, other) <==> c == 45 || c == 95 || IsWhite(c)
    ensures !(c == 45 || c == 95 || IsWhite(c)) ==>
              exists x, y :: SearchKey(fold, name) == x + [c] + y && SearchKey(fold, other) == x + y
  {
    hide IsWhite, Filter;
    var keep: CodeUnit -> bool := x => !IsSeparator(x);
    FilterAppend(keep, u + [c], v);
    FilterNext(keep, u, c);
    FilterAppend(keep, u, v);
    var x, y := Filter(keep, u), Filter(keep, v);
    assert SearchKey(fold, other) == x + y by {
      KeyIsFiltered(fold, other, keep);
    }
    assert SearchKey(fold, name) == x + (if IsSeparator(c) then [] else [c]) + y by {
      KeyIsFiltered(fold, name, keep);
    }
    assert x + [] == x;
  }

  lemma KeyIsFiltered(fold: JsString -> JsString, name: Name, keep: CodeUnit -> bool)
    requires forall c :: keep(c) <==> !IsSeparator(c)
    ensures SearchKey(fold, name) == Filter(keep, fold(name))
  {
    FilterSame(c => !IsSeparator(c), keep, fold(name));
  }

  /** Without separators the search key is the folded name. */
  lemma {:induction false} KeyOfPlainName(fold: JsString -> JsString, name: Name)
    requires forall i :: 0 <= i < |fold(name)| ==> fold(name)[i] != 45 && fold(name)[i] != 95 && !IsWhite(fold(name)[i])
    ensures SearchKey(fold, name) == fold(name)
  {
    FilterAll(c => !IsSeparator(c), fold(name));
  }

  lemma {:induction false} FilterAll<T>(keep: T -> bool, s: seq<T>)
    requires forall i :: 0 <= i < |s| ==> keep(s[i])
    ensures Filter(keep, s) == s
  {
    if s != [] {
      FilterAll(keep, s[..|s| - 1]);
    }
  }
}
