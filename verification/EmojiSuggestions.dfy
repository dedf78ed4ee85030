/** src/helpers/emoji_suggestions.ts: emoji offered while a `:shortcode` is typed. */
module EmojiSuggesting {
  import opened Prelude
  import opened Lists
  import opened EmojiIndex
  import opened EmojiLookup
  import opened EmojiSearch

  const SUGGESTION_LIMIT := 12
  const RECENT_LIMIT := 36

  // ---- The word at the caret ------------------------------------------------------------------

  function WordStart(value: JsString, caret: nat): (from: nat)
    requires caret <= |value|
    ensures from <= caret
  {
    if caret > 0 && !IsWhite(value[caret - 1]) then WordStart(value, caret - 1) else caret
  }

  function WordEnd(value: JsString, caret: nat): (to: nat)
    requires caret <= |value|
    ensures caret <= to <= |value|
    decreases |value| - caret
  {
    if caret < |value| && !IsWhite(value[caret]) then WordEnd(value, caret + 1) else caret
  }

  /** The longest stretch without white space around the caret. */
  lemma {:induction false} WordStartIsMaximal(value: JsString, caret: nat)
    requires caret <= |value|
    ensures var from := WordStart(value, caret);
            && (forall i :: from <= i < caret ==> !IsWhite(value[i]))
            && (from == 0 || IsWhite(value[from - 1]))
  {
    if caret > 0 && !IsWhite(value[caret - 1]) {
      WordStartIsMaximal(value, caret - 1);
    }
  }

  lemma {:induction false} WordEndIsMaximal(value: JsString, caret: nat)
    requires caret <= |value|
    ensures var to := WordEnd(value, caret);
            && (forall i :: caret <= i < to ==> !IsWhite(value[i]))
            && (to == |value| || IsWhite(value[to]))
    decreases |value| - caret
  {
    if caret < |value| && !IsWhite(value[caret]) {
      WordEndIsMaximal(value, caret + 1);
    }
  }

  method ScanBack(value: JsString, caret: nat) returns (from: nat)
    requires caret <= |value|
    ensures from == WordStart(value, caret)
  {
    from := caret;
    while from > 0 && !IsWhite(value[from - 1])
      invariant from <= caret && WordStart(value, from) == WordStart(value, caret)
    {
      from := from - 1;
    }
  }

  method ScanAhead(value: JsString, caret: nat) returns (to: nat)
    requires caret <= |value|
    ensures to == WordEnd(value, caret)
  {
    to := caret;
    while to < |value| && !IsWhite(value[to])
      invariant caret <= to <= |value| && WordEnd(value, to) == WordEnd(value, caret)
    {
      to := to + 1;
    }
  }

  /** The shortcode being typed, folded and without its colon, and where it sits. */
  datatype Needle = Needle(text: JsString, from: nat, to: nat)

  /** Where the caret is; a selection or an input without one has none. */
  datatype Selection = NoSelection | Range(start: nat, end: nat)

  predicate Fits(selection: Selection, value: JsString) {
    selection.Range? ==> selection.start <= selection.end <= |value|
  }

  function WordAtCaret(value: JsString, selection: Selection, fold: JsString -> JsString): Option<Needle>
    requires Fits(selection, value)
  {
    if selection.NoSelection? || selection.start != selection.end then None
    else
      var from, to := WordStart(value, selection.start), WordEnd(value, selection.start);
      var text := value[from..to];
      if text == [] || text[0] != COLON || (|text| > 1 && text[|text| - 1] == COLON) then None
      else Some(Needle(fold(text[1..]), from, to))
  }

  /** The text between two places has no white space, and white space or the end of the value around it. */
  ghost predicate IsWord(value: JsString, from: nat, to: nat)
    requires from <= to <= |value|
  {
    && (forall i :: from <= i < to ==> !IsWhite(value[i]))
    && (from == 0 || IsWhite(value[from - 1]))
    && (to == |value| || IsWhite(value[to]))
  }

  /**
    * The shortcode at the caret: what follows the colon of the word around it, unless a second colon
    * closes it. Of the word itself nothing is assumed but where it ends.
    */
  lemma WordAtCaretIs(value: JsString, caret: nat, fold: JsString -> JsString, from: nat, to: nat)
    requires from <= caret <= to <= |value| && IsWord(value, from, to)
    ensures WordAtCaret(value, Range(caret, caret), fold) ==
            if from == to || value[from] != 58 || (to - from > 1 && value[to - 1] == 58) then None
            else Some(Needle(fold(value[from + 1..to]), from, to))
  {
    hide IsWhite;
    WordStartIsMaximal(value, caret);
    WordEndIsMaximal(value, caret);
    assert WordStart(value, caret) == from && WordEnd(value, caret) == to;
    if from < to {
      assert value[from..to][1..] == value[from + 1..to];
    }
  }

  /** Without a caret, or with text selected, there is none. */
  lemma NoWordInSelection(value: JsString, selection: Selection, fold: JsString -> JsString)
    requires Fits(selection, value) && (selection.Range? ==> selection.start != selection.end)
    ensures WordAtCaret(value, selection, fold) == None
  {
  }

  // ---- What is offered ------------------------------------------------------------------------

  /** The names of the recently used emoji that start with the text. */
  function RecentNames(t: Tables, recent: seq<Emoji>, text: JsString): seq<Name> {
    if recent == [] then []
    else
      var name := Utf8ToShortname(t, recent[|recent| - 1]);
      RecentNames(t, recent[..|recent| - 1], text) + if name.Some? && text <= name.value then [name.value] else []
  }

  /** Recently used first, then everything else that matches: the best twelve, as if nothing were capped. */
  function Offered(t: Tables, fold: JsString -> JsString, recent: seq<Emoji>, text: JsString): seq<Name> {
    var names := RecentNames(t, recent, text);
    Take(names + Without(AllMatches(t.names, fold, text), set n | n in names), SUGGESTION_LIMIT)
  }

  lemma {:induction false} RecentNamesAreDistinct(t: Tables, fold: JsString -> JsString, recent: seq<Emoji>,
                                                  text: JsString)
    requires Built(t, fold) && Distinct(recent)
    ensures Distinct(RecentNames(t, recent, text))
    ensures forall n :: n in RecentNames(t, recent, text) ==>
              exists i :: 0 <= i < |recent| && Utf8ToShortname(t, recent[i]) == Some(n)
  {
    hide Built;
    if recent != [] {
      var init, last := recent[..|recent| - 1], recent[|recent| - 1];
      RecentNamesAreDistinct(t, fold, init, text);
      var name, names := Utf8ToShortname(t, last), RecentNames(t, init, text);
      forall n | n in names ensures exists i :: 0 <= i < |recent| && Utf8ToShortname(t, recent[i]) == Some(n) {
        var i :| 0 <= i < |init| && Utf8ToShortname(t, init[i]) == Some(n);
        assert Utf8ToShortname(t, recent[i]) == Some(n);
      }
      if name.Some? && name.value in names {
        var i :| 0 <= i < |init| && Utf8ToShortname(t, init[i]) == name;
        assert recent[i] != recent[|recent| - 1];
        NamesAreInjective(t, fold, init[i], last);
      }
    }
  }

  /** No suggestion comes twice. */
  lemma OfferedIsDistinct(t: Tables, fold: JsString -> JsString, recent: seq<Emoji>, text: JsString)
    requires Built(t, fold) && Distinct(recent)
    ensures Distinct(Offered(t, fold, recent, text))
  {
    hide Filter, RecentNames, AllMatches;
    var names := RecentNames(t, recent, text);
    var used := set n | n in names;
    RecentNamesAreDistinct(t, fold, recent, text);
    MatchesAreDistinct(t.names, fold, text);
    FilterDistinct(NotIn(used), AllMatches(t.names, fold, text));
    FilterHas(NotIn(used), AllMatches(t.names, fold, text));
    DistinctAppend(names, Without(AllMatches(t.names, fold, text), used));
  }

  /** The search is capped at twelve more than there are recent names, which is always enough. */
  method Suggest(t: Tables, fold: JsString -> JsString, recent: seq<Emoji>, text: JsString)
    returns (suggestions: seq<Name>)
    requires Built(t, fold)
    ensures suggestions == Offered(t, fold, recent, text)
  {
    hide Filter, AllMatches, Built;
    var names := RecentNames(t, recent, text);
    var found := ShortnamesStartingWith(t.names, fold, text, SUGGESTION_LIMIT + |names|);
    ghost var used := set n | n in names;
    assert Distinct(t.names) by {
      BuiltNamesAreDistinct(t, fold);
    }
    MatchesAreDistinct(t.names, fold, text);
    TakeWithoutTake(AllMatches(t.names, fold, text), names, SUGGESTION_LIMIT);
    var rest := Without(found, set n | n in names);
    suggestions := Take(names + rest, SUGGESTION_LIMIT);
    TakeAfter(names, rest, Without(AllMatches(t.names, fold, text), used), SUGGESTION_LIMIT);
  }

  lemma BuiltNamesAreDistinct(t: Tables, fold: JsString -> JsString)
    requires Built(t, fold)
    ensures Distinct(t.names)
  {
  }

  lemma TakeAfter<T>(a: seq<T>, b: seq<T>, c: seq<T>, n: nat)
    requires Take(b, n) == Take(c, n)
    ensures Take(a + b, n) == Take(a + c, n)
  {
    forall i | 0 <= i < n && i < |a + b| && i < |a + c| ensures (a + b)[i] == (a + c)[i] {
      if i >= |a| {
        assert Take(b, n)[i - |a|] == Take(c, n)[i - |a|];
      }
    }
    assert |Take(b, n)| == |Take(c, n)|;
  }

  // ---- What is offered, in its own terms --------------------------------------------------------

  /** The name of a recently used emoji that starts with what was typed. */
  ghost predicate IsRecent(t: Tables, recent: seq<Emoji>, text: JsString, name: Name) {
    text <= name && exists i :: 0 <= i < |recent| && Utf8ToShortname(t, recent[i]) == Some(name)
  }

  lemma {:induction false} RecentNamesHave(t: Tables, recent: seq<Emoji>, text: JsString)
    ensures forall n :: n in RecentNames(t, recent, text) <==> IsRecent(t, recent, text, n)
  {
    if recent != [] {
      var init, last := recent[..|recent| - 1], Utf8ToShortname(t, recent[|recent| - 1]);
      RecentNamesHave(t, init, text);
      forall n ensures n in RecentNames(t, recent, text) <==> IsRecent(t, recent, text, n) {
        if IsRecent(t, init, text, n) {
          var i :| 0 <= i < |init| && Utf8ToShortname(t, init[i]) == Some(n);
          assert Utf8ToShortname(t, recent[i]) == Some(n);
        }
        if last == Some(n) && text <= n {
          assert Utf8ToShortname(t, recent[|recent| - 1]) == Some(n);
        }
      }
    }
  }

  /** Names of recently used emoji come in the order of those. */
  lemma {:induction false} RecentNamesInOrder(t: Tables, recent: seq<Emoji>, text: JsString, i: nat, j: nat)
    requires i < j < |RecentNames(t, recent, text)|
    ensures exists p, q :: 0 <= p < q < |recent|
                           && Utf8ToShortname(t, recent[p]) == Some(RecentNames(t, recent, text)[i])
                           && Utf8ToShortname(t, recent[q]) == Some(RecentNames(t, recent, text)[j])
  {
    var init, names := recent[..|recent| - 1], RecentNames(t, recent, text);
    var earlier := RecentNames(t, init, text);
    if j < |earlier| {
      RecentNamesInOrder(t, init, text, i, j);
      var p, q :| 0 <= p < q < |init| && Utf8ToShortname(t, init[p]) == Some(earlier[i])
                  && Utf8ToShortname(t, init[q]) == Some(earlier[j]);
      assert Utf8ToShortname(t, recent[p]) == Some(names[i]) && Utf8ToShortname(t, recent[q]) == Some(names[j]);
    } else {
      RecentNamesHave(t, init, text);
      assert earlier[i] == names[i] && IsRecent(t, init, text, names[i]);
      var p :| 0 <= p < |init| && Utf8ToShortname(t, init[p]) == Some(names[i]);
      assert Utf8ToShortname(t, recent[p]) == Some(names[i]);
      assert Utf8ToShortname(t, recent[|recent| - 1]) == Some(names[j]);
    }
  }

  /** The name starts with the prefix, or its search key with that of the prefix. */
  ghost predicate IsMatch(t: Tables, fold: JsString -> JsString, text: JsString, name: Name) {
    name in t.names && (fold(text) <= name || SearchKey(fold, text) <= SearchKey(fold, name))
  }

  /**
    * Only recently used emoji and matches are offered, at most twelve; and all of them are, unless
    * there are more than that.
    */
  lemma OfferedHas(t: Tables, fold: JsString -> JsString, recent: seq<Emoji>, text: JsString, name: Name)
    ensures |Offered(t, fold, recent, text)| <= 12
    ensures name in Offered(t, fold, recent, text) ==> IsRecent(t, recent, text, name) || IsMatch(t, fold, text, name)
    ensures IsRecent(t, recent, text, name) || IsMatch(t, fold, text, name) ==>
              name in Offered(t, fold, recent, text) || |Offered(t, fold, recent, text)| == 12
  {
    hide Filter, RecentNames, AllMatches, SearchKey, IsRecent;
    var names := RecentNames(t, recent, text);
    var used := set n | n in names;
    RecentNamesHave(t, recent, text);
    MatchesAreComplete(t.names, fold, text, name);
    FilterHas(NotIn(used), AllMatches(t.names, fold, text));
    var all := names + Without(AllMatches(t.names, fold, text), used);
    assert name in all <==> IsRecent(t, recent, text, name) || IsMatch(t, fold, text, name);
    if |all| <= 12 {
      assert Take(all, 12) == all;
    }
  }

  /**
    * Recently used emoji stand first, in their order; then exact matches before loose ones, each kind in
    * the order of the names.
    */
  lemma OfferedInOrder(t: Tables, fold: JsString -> JsString, recent: seq<Emoji>, text: JsString, i: nat, j: nat)
    requires Distinct(t.names) && i < j < |Offered(t, fold, recent, text)|
    ensures var a, b := Offered(t, fold, recent, text)[i], Offered(t, fold, recent, text)[j];
            && (IsRecent(t, recent, text, b) ==>
                  exists p, q :: 0 <= p < q < |recent| && Utf8ToShortname(t, recent[p]) == Some(a)
                                 && Utf8ToShortname(t, recent[q]) == Some(b))
            && (!IsRecent(t, recent, text, a) && fold(text) <= b ==> fold(text) <= a)
            && (!IsRecent(t, recent, text, a) && (fold(text) <= a <==> fold(text) <= b) ==> Before(t.names, a, b))
  {
    hide Filter, RecentNames, AllMatches, SearchKey, IsRecent, Before;
    var names := RecentNames(t, recent, text);
    var used := set n | n in names;
    RecentNamesHave(t, recent, text);
    var matches := AllMatches(t.names, fold, text);
    var rest := Without(matches, used);
    FilterHas(NotIn(used), matches);
    var a, b := (names + rest)[i], (names + rest)[j];
    if j < |names| {
      assert b in names && a in names;
      RecentNamesInOrder(t, recent, text, i, j);
    } else if i < |names| {
      assert a in names && b in rest;
    } else {
      assert a in rest && b in rest;
      RestInOrder(t, fold, text, used, i - |names|, j - |names|);
    }
  }

  lemma RestInOrder(t: Tables, fold: JsString -> JsString, text: JsString, used: set<Name>, i: nat, j: nat)
    requires Distinct(t.names) && i < j < |Without(AllMatches(t.names, fold, text), used)|
    ensures var rest := Without(AllMatches(t.names, fold, text), used);
            var a, b := rest[i], rest[j];
            && (fold(text) <= b ==> fold(text) <= a)
            && ((fold(text) <= a <==> fold(text) <= b) ==> Before(t.names, a, b))
  {
    hide Filter, AllMatches, SearchKey;
    var matches := AllMatches(t.names, fold, text);
    var rest := Without(matches, used);
    MatchesAreDistinct(t.names, fold, text);
    FilterDistinct(NotIn(used), matches);
    FilterHas(NotIn(used), matches);
    assert rest[i] in rest && rest[j] in rest;
    DistinctBefore(rest, i, j);
    FilterKeepsOrder(NotIn(used), matches, rest[i], rest[j]);
    var p :| 0 <= p < |matches| && matches[p] == rest[i] && rest[j] !in matches[..p + 1];
    var q :| 0 <= q < |matches| && matches[q] == rest[j];
    assert forall k :: 0 <= k <= p ==> matches[k] in matches[..p + 1];
    assert p < q;
    MatchesInOrder(t.names, fold, text, p, q);
  }

  // ---- The class ------------------------------------------------------------------------------

  datatype Key = ArrowRight | ArrowLeft | Enter | Tab | Escape | OtherKey

  class EmojiSuggestions {
    const tables: Tables
    const fold: JsString -> JsString
    const render: (Name, nat) -> Option<Emoji>

    /** The input and the recently used emoji of the settings. */
    var value: JsString
    var selection: Selection
    var recent: seq<Emoji>

    /** Whether the strip is showing, and what it offers. */
    var open: bool
    var suggestions: seq<Name>
    var index: nat
    var needle: Option<JsString>

    ghost predicate Valid()
      reads this
    {
      && Built(tables, fold)
      && Fits(selection, value)
      && (if open then
            && needle.Some? && suggestions == Offered(tables, fold, recent, needle.value)
            && index < |suggestions| <= SUGGESTION_LIMIT
          else suggestions == [] && index == 0 && needle == None)
    }

    constructor (tables: Tables, fold: JsString -> JsString, render: (Name, nat) -> Option<Emoji>,
                 value: JsString, recent: seq<Emoji>)
      requires Built(tables, fold)
      ensures Valid() && !open && this.value == value && this.recent == recent
      ensures this.tables == tables && this.fold == fold && this.render == render
    {
      this.tables, this.fold, this.render := tables, fold, render;
      this.value, this.selection, this.recent := value, NoSelection, recent;
      open, suggestions, index, needle := false, [], 0, None;
    }

    function Resolve(shortname: Name): Option<Emoji> { ShortnameToUtf8(tables, fold, render, shortname) }

    function Word(): Option<Needle>
      requires Fits(selection, value)
      reads this
    {
      WordAtCaret(value, selection, fold)
    }

    method Hide()
      requires Built(tables, fold) && Fits(selection, value)
      modifies this`open, this`suggestions, this`index, this`needle
      ensures Valid() && !open
    {
      open, suggestions, index, needle := false, [], 0, None;
    }

    method FindWord() returns (word: Option<Needle>)
      requires Fits(selection, value)
      ensures word == Word()
    {
      if selection.NoSelection? || selection.start != selection.end {
        return None;
      }
      var from := ScanBack(value, selection.start);
      var to := ScanAhead(value, selection.start);
      var text := value[from..to];
      if text == [] || text[0] != COLON || (|text| > 1 && text[|text| - 1] == COLON) {
        return None;
      }
      return Some(Needle(fold(text[1..]), from, to));
    }

    /** Puts the emoji in place of a part of the value, and the caret behind it. */
    method Replace(from: nat, to: nat, emoji: Emoji)
      requires from <= to <= |value|
      modifies this`value, this`selection
      ensures value == old(value)[..from] + emoji + old(value)[to..]
      ensures selection == Range(from + |emoji|, from + |emoji|) && Fits(selection, value)
    {
      value := value[..from] + emoji + value[to..];
      selection := Range(from + |emoji|, from + |emoji|);
    }

    /** The finished `:shortcode:` before the caret: where it starts and the emoji it stands for. */
    function Finished(): Option<(nat, Emoji)>
      requires Fits(selection, value)
      reads this
    {
      if selection.NoSelection? then None
      else
        var from := WordStart(value, selection.start);
        var typed := value[from..selection.start];
        if |typed| <= 2 || typed[0] != COLON || typed[|typed| - 1] != COLON then None
        else match Resolve(typed[1..|typed| - 1])
          case None => None
          case Some(emoji) => Some((from, emoji))
    }

    method CompleteShortcode()
      requires Valid()
      modifies this
      ensures Valid() && recent == old(recent)
      ensures match old(Finished())
              case None => unchanged(this)
              case Some((from, emoji)) =>
                && value == old(value)[..from] + emoji + old(value)[old(selection).start..]
                && selection == Range(from + |emoji|, from + |emoji|) && !open
    {
      hide Built, Offered, WordStart, ShortnameToUtf8;
      if selection.NoSelection? {
        return;
      }
      var caret := selection.start;
      var from := ScanBack(value, caret);
      var typed := value[from..caret];
      if |typed| <= 2 || typed[0] != COLON || typed[|typed| - 1] != COLON {
        return;
      }
      var emoji := Resolve(typed[1..|typed| - 1]);
      if emoji.None? {
        return;
      }
      Replace(from, caret, emoji.value);
      Hide();
    }

    /** After every input the strip shows exactly what is on offer for the word at the caret. */
    method Update()
      requires Valid()
      modifies this
      ensures Valid() && recent == old(recent)
      ensures match old(Finished())
              case None => value == old(value) && selection == old(selection)
              case Some((from, emoji)) =>
                && value == old(value)[..from] + emoji + old(value)[old(selection).start..]
                && selection == Range(from + |emoji|, from + |emoji|)
      ensures open <==> Word().Some? && Offered(tables, fold, recent, Word().value.text) != []
      ensures open ==> needle == Some(Word().value.text)
    {
      hide Offered, Built;
      CompleteShortcode();
      var word := FindWord();
      if word.None? {
        Hide();
        return;
      }
      if Some(word.value.text) == needle && open {
        return;
      }
      needle := Some(word.value.text);
      suggestions := Suggest(tables, fold, recent, word.value.text);
      if suggestions == [] {
        Hide();
        return;
      }
      index := 0;
      open := true;
      OfferedIsShort(tables, fold, recent, word.value.text);
    }

    /** The recently used emoji with this one moved to the front. */
    static function MovedToFront(emoji: Emoji, recent: seq<Emoji>): seq<Emoji> {
      Take([emoji] + Without(recent, {emoji}), RECENT_LIMIT)
    }

    method Insert(shortname: Name)
      requires Valid()
      modifies this
      ensures Valid() && !open
      ensures match (old(Word()), Resolve(shortname))
              case (Some(word), Some(emoji)) =>
                && value == old(value)[..word.from] + emoji + old(value)[word.to..]
                && selection == Range(word.from + |emoji|, word.from + |emoji|)
                && recent == MovedToFront(emoji, old(recent))
              case _ => value == old(value) && selection == old(selection) && recent == old(recent)
    {
      var word := FindWord();
      var emoji := Resolve(shortname);
      if word.None? || emoji.None? {
        Hide();
        return;
      }
      Replace(word.value.from, word.value.to, emoji.value);
      recent := MovedToFront(emoji.value, recent);
      Hide();
    }

    /** Returns whether the strip took the key. */
    method HandleKeyDown(key: Key) returns (taken: bool)
      requires Valid()
      modifies this
      ensures Valid()
      ensures taken <==> old(open) && key != OtherKey
      ensures !taken ==> unchanged(this)
      ensures key.ArrowRight? && taken ==>
                open && suggestions == old(suggestions) && index == Min(old(index) + 1, |suggestions| - 1)
      ensures key.ArrowLeft? && taken ==>
                open && suggestions == old(suggestions) && index == Max(old(index) - 1, 0)
      ensures (key.Escape? || key.ArrowRight? || key.ArrowLeft?) && taken ==>
                value == old(value) && selection == old(selection) && recent == old(recent)
      ensures (key.Enter? || key.Tab? || key.Escape?) && taken ==> !open
      ensures (key.Enter? || key.Tab?) && taken ==>
                match (old(Word()), Resolve(old(suggestions[index])))
                case (Some(word), Some(emoji)) =>
                  && value == old(value)[..word.from] + emoji + old(value)[word.to..]
                  && selection == Range(word.from + |emoji|, word.from + |emoji|)
                  && recent == MovedToFront(emoji, old(recent))
                case _ => value == old(value) && selection == old(selection) && recent == old(recent)
    {
      hide Built, Offered, ShortnameToUtf8, WordAtCaret, MovedToFront;
      if !open {
        return false;
      }
      match key {
        case ArrowRight => index := Min(index + 1, |suggestions| - 1);
        case ArrowLeft => index := Max(index - 1, 0);
        case Enter => Insert(suggestions[index]);
        case Tab => Insert(suggestions[index]);
        case Escape => Hide();
        case OtherKey => return false;
      }
      return true;
    }
  }

  lemma OfferedIsShort(t: Tables, fold: JsString -> JsString, recent: seq<Emoji>, text: JsString)
    ensures |Offered(t, fold, recent, text)| <= SUGGESTION_LIMIT
  {
  }

  /** A shortcode closed right before the caret stands for the emoji its name resolves to. */
  lemma FinishedIs(s: EmojiSuggestions, from: nat)
    requires Fits(s.selection, s.value) && s.selection.Range? && from <= s.selection.start
    requires forall i :: from <= i < s.selection.start ==> !IsWhite(s.value[i])
    requires from == 0 || IsWhite(s.value[from - 1])
    ensures var caret := s.selection.start;
            s.Finished() ==
            if caret - from <= 2 || s.value[from] != 58 || s.value[caret - 1] != 58 then None
            else
              match ShortnameToUtf8(s.tables, s.fold, s.render, s.value[from + 1..caret - 1])
              case None => None
              case Some(emoji) => Some((from, emoji))
  {
    hide IsWhite, ShortnameToUtf8;
    var caret := s.selection.start;
    WordStartIsMaximal(s.value, caret);
    assert WordStart(s.value, caret) == from;
    if caret - from > 2 {
      WithoutColons(s.value, from, caret);
    }
  }

  lemma WithoutColons(s: JsString, from: nat, to: nat)
    requires from + 2 <= to <= |s|
    ensures s[from..to][1..to - from - 1] == s[from + 1..to - 1]
  {
    var inner := s[from..to][1..to - from - 1];
    forall i | 0 <= i < to - from - 2 ensures inner[i] == s[from + 1..to - 1][i] {
      assert inner[i] == s[from + 1 + i];
    }
  }

  /** The picked emoji goes first; the others follow in their order, as many as 36 places allow. */
  lemma MovedToFrontKeeps(emoji: Emoji, recent: seq<Emoji>, e: Emoji)
    requires Distinct(recent)
    ensures var moved := EmojiSuggestions.MovedToFront(emoji, recent);
            && |moved| <= 36
            && (e in recent ==> e in moved || |moved| == 36)
            && forall i, j :: 0 < i < j < |moved| ==> Before(recent, moved[i], moved[j])
  {
    hide Filter, Before;
    var others := Without(recent, {emoji});
    var all, moved := [emoji] + others, EmojiSuggestions.MovedToFront(emoji, recent);
    FilterHas(NotIn({emoji}), recent);
    FilterDistinct(NotIn({emoji}), recent);
    assert e in recent ==> e in all;
    if |all| <= 36 {
      assert moved == all;
    }
    forall i, j | 0 < i < j < |moved| ensures Before(recent, moved[i], moved[j]) {
      assert moved[i] == others[i - 1] && moved[j] == others[j - 1] && others[j - 1] in others;
      DistinctBefore(others, i - 1, j - 1);
      FilterKeepsOrder(NotIn({emoji}), recent, moved[i], moved[j]);
    }
  }

  /** Picking emoji keeps the recently used ones distinct, and so what is offered. */
  lemma MovedToFrontIsDistinct(emoji: Emoji, recent: seq<Emoji>)
    requires Distinct(recent)
    ensures var moved := EmojiSuggestions.MovedToFront(emoji, recent);
            Distinct(moved) && moved[0] == emoji && forall e :: e in moved ==> e == emoji || e in recent
  {
    FilterDistinct(NotIn({emoji}), recent);
    FilterHas(NotIn({emoji}), recent);
    DistinctAppend([emoji], Without(recent, {emoji}));
  }
}
