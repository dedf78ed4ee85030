/** `shortnamesStartingWith` of src/helpers/emoji.ts: a capped search that stops early. */
module EmojiSearch {
  import opened Prelude
  import opened Lists
  import opened EmojiIndex
  import opened EmojiLookup

  function MatchesExactly(needle: JsString): Name -> bool { n => needle <= n }

  function MatchesLoosely(fold: JsString -> JsString, needle: JsString, loose: JsString): Name -> bool {
    n => !(needle <= n) && loose <= SearchKey(fold, n)
  }

  /** All matches as if nothing were capped: exact ones first, each kind in index order. */
  function AllMatches(names: seq<Name>, fold: JsString -> JsString, prefix: JsString): seq<Name> {
    Filter(MatchesExactly(fold(prefix)), names)
    + Filter(MatchesLoosely(fold, fold(prefix), SearchKey(fold, prefix)), names)
  }

  /** The early exit and the two capped buffers do not change the answer. */
  method ShortnamesStartingWith(names: seq<Name>, fold: JsString -> JsString, prefix: JsString, limit: nat)
    returns (matches: seq<Name>)
    ensures matches == Take(AllMatches(names, fold, prefix), limit)
  {
    hide Filter, SearchKey;
    var needle, loose := fold(prefix), SearchKey(fold, prefix);
    var exact, fuzzy := [], [];
    ghost var isExact, isLoose := MatchesExactly(needle), MatchesLoosely(fold, needle, loose);
    FilterNothing(isExact);
    FilterNothing(isLoose);
    var i := 0;
    while i < |names|
      invariant 0 <= i <= |names|
      invariant exact == Filter(isExact, names[..i]) && (0 < limit ==> |exact| < limit)
      invariant fuzzy == Take(Filter(isLoose, names[..i]), limit)
    {
      assert names[..i + 1] == names[..i] + [names[i]];
      FilterNext(isExact, names[..i], names[i]);
      FilterNext(isLoose, names[..i], names[i]);
      if needle <= names[i] {
        exact := exact + [names[i]];
        if |exact| == limit {
          assert exact <= Filter(isExact, names) by {
            FilterAppend(isExact, names[..i + 1], names[i + 1..]);
            assert names == names[..i + 1] + names[i + 1..];
          }
          break;
        }
      } else if |fuzzy| < limit && loose <= SearchKey(fold, names[i]) {
        fuzzy := fuzzy + [names[i]];
      }
      i := i + 1;
    }
    assert i == |names| ==> names[..i] == names;
    CappedIsUncapped(Filter(isExact, names), Filter(isLoose, names), exact, fuzzy, limit);
    matches := Take(exact + fuzzy, limit);
  }

  lemma FilterNothing(keep: Name -> bool)
    ensures Filter(keep, []) == []
  {
  }

  /** It is enough to have the cap's worth of exact matches, or all of them and that many others. */
  lemma CappedIsUncapped<T>(allExact: seq<T>, allFuzzy: seq<T>, exact: seq<T>, fuzzy: seq<T>, limit: nat)
    requires (exact <= allExact && |exact| == limit) || (exact == allExact && fuzzy == Take(allFuzzy, limit))
    ensures Take(exact + fuzzy, limit) == Take(allExact + allFuzzy, limit)
  {
  }

  lemma MatchesAreDistinct(names: seq<Name>, fold: JsString -> JsString, prefix: JsString)
    requires Distinct(names)
    ensures Distinct(AllMatches(names, fold, prefix))
  {
    var isExact, isLoose := MatchesExactly(fold(prefix)), MatchesLoosely(fold, fold(prefix), SearchKey(fold, prefix));
    FilterDistinct(isExact, names);
    FilterDistinct(isLoose, names);
    FilterHas(isExact, names);
    FilterHas(isLoose, names);
    DistinctAppend(Filter(isExact, names), Filter(isLoose, names));
  }

  /** Every name with the prefix or its search key is found, and nothing else. */
  lemma MatchesAreComplete(names: seq<Name>, fold: JsString -> JsString, prefix: JsString, name: Name)
    ensures name in AllMatches(names, fold, prefix) <==>
            name in names && (fold(prefix) <= name || SearchKey(fold, prefix) <= SearchKey(fold, name))
  {
    FilterHas(MatchesExactly(fold(prefix)), names);
    FilterHas(MatchesLoosely(fold, fold(prefix), SearchKey(fold, prefix)), names);
  }

  /** Exact matches stand before loose ones, and each kind as the names do. */
  lemma MatchesInOrder(names: seq<Name>, fold: JsString -> JsString, prefix: JsString, i: nat, j: nat)
    requires Distinct(names) && i < j < |AllMatches(names, fold, prefix)|
    ensures var a, b := AllMatches(names, fold, prefix)[i], AllMatches(names, fold, prefix)[j];
            && (fold(prefix) <= b ==> fold(prefix) <= a)
            && ((fold(prefix) <= a <==> fold(prefix) <= b) ==> Before(names, a, b))
  {
    hide Filter, SearchKey, Before;
    var isExact, isLoose := MatchesExactly(fold(prefix)), MatchesLoosely(fold, fold(prefix), SearchKey(fold, prefix));
    FilterHas(isExact, names);
    FilterHas(isLoose, names);
    FilterDistinct(isExact, names);
    FilterDistinct(isLoose, names);
    var exact, loose := Filter(isExact, names), Filter(isLoose, names);
    var a, b := (exact + loose)[i], (exact + loose)[j];
    if j < |exact| {
      DistinctBefore(exact, i, j);
      assert a in exact && b in exact;
      FilterKeepsOrder(isExact, names, a, b);
    } else if i < |exact| {
      assert a in exact && b in loose;
    } else {
      DistinctBefore(loose, i - |exact|, j - |exact|);
      assert a in loose && b in loose;
      FilterKeepsOrder(isLoose, names, a, b);
    }
  }
}
