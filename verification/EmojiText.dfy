/** `parseEmoji` of src/helpers/emoji.ts: cutting a text into emoji and plain text. */
module EmojiText {
  import opened Prelude
  import opened Lists

  datatype Token = Plain(text: JsString) | EmojiInfo(emojiString: JsString, imgPath: JsString, codepoint: JsString)

  datatype Match = Match(start: nat, end: nat)

  /**
    * The global regex: the first match at or after a position. Matches lie in the text, where the search
    * may look, and are not empty (an empty one would keep the loop from getting on).
    */
  type Matcher = (JsString, nat) -> Option<Match>

  ghost predicate Proper(matcher: Matcher, text: JsString) {
    forall from: nat :: matcher(text, from).Some? ==>
      from <= matcher(text, from).value.start < matcher(text, from).value.end <= |text|
  }

  function TextOf(token: Token): JsString {
    match token case Plain(text) => text case EmojiInfo(emojiString, _, _) => emojiString
  }

  function Concat(tokens: seq<Token>): JsString {
    if tokens == [] then [] else Concat(tokens[..|tokens| - 1]) + TextOf(tokens[|tokens| - 1])
  }

  /** The file name without directory and `.png`. */
  function CodepointOf(path: JsString): JsString {
    var name := AfterLastSlash(path);
    if |name| >= 4 && name[|name| - 4..] == [46, 112, 110, 103] then name[..|name| - 4] else name
  }

  function AfterLastSlash(path: JsString): (name: JsString)
    ensures 47 !in name
  {
    if path == [] || path[|path| - 1] == 47 then []
    else AfterLastSlash(path[..|path| - 1]) + [path[|path| - 1]]
  }

  /** The file name is what follows the last slash, or the whole path without one. */
  lemma {:induction false} FileNameFollowsSlash(path: JsString)
    ensures 47 !in AfterLastSlash(path)
    ensures var name := AfterLastSlash(path);
            || name == path
            || exists i :: 0 <= i < |path| && path[i] == 47 && name == path[i + 1..]
  {
    if path == [] {
      assert AfterLastSlash(path) == [];
    } else if path[|path| - 1] == 47 {
      assert AfterLastSlash(path) == [] == path[|path|..];
    } else {
      var init, last := path[..|path| - 1], path[|path| - 1];
      FileNameFollowsSlash(init);
      var name := AfterLastSlash(init);
      assert AfterLastSlash(path) == name + [last];
      hide AfterLastSlash;
      assert path == init + [last];
      if name != init {
        var i :| 0 <= i < |init| && init[i] == 47 && name == init[i + 1..];
        assert path[i] == 47 && path[i + 1..] == init[i + 1..] + [last];
      }
    }
  }

  /** A match is shown as its image; without one it stays as it is. */
  function TokenOf(emoji: JsString, imagePath: JsString -> Option<JsString>): Token {
    match imagePath(emoji)
    case None => Plain(emoji)
    case Some(path) => EmojiInfo(emoji, path, CodepointOf(path))
  }

  function PlainIfAny(text: JsString): seq<Token> { if text == [] then [] else [Plain(text)] }

  /** What the text from a position on is cut into. */
  ghost function TokensFrom(text: JsString, from: nat, matcher: Matcher, imagePath: JsString -> Option<JsString>)
    : seq<Token>
    requires Proper(matcher, text) && from <= |text|
    decreases |text| - from
  {
    match matcher(text, from)
    case None => PlainIfAny(text[from..])
    case Some(m) =>
      PlainIfAny(text[from..m.start]) + [TokenOf(text[m.start..m.end], imagePath)]
      + TokensFrom(text, m.end, matcher, imagePath)
  }

  method ParseEmoji(text: JsString, matcher: Matcher, imagePath: JsString -> Option<JsString>)
    returns (result: seq<Token>)
    requires Proper(matcher, text)
    ensures result == TokensFrom(text, 0, matcher, imagePath)
  {
    hide TokensFrom, CodepointOf, PlainIfAny;
    result := [];
    var endIndex := 0;
    var found := matcher(text, 0);
    assert [] + TokensFrom(text, 0, matcher, imagePath) == TokensFrom(text, 0, matcher, imagePath);
    while found.Some?
      invariant endIndex <= |text| && found == matcher(text, endIndex)
      invariant result + TokensFrom(text, endIndex, matcher, imagePath) == TokensFrom(text, 0, matcher, imagePath)
      decreases |text| - endIndex
    {
      var startIndex, lastIndex := found.value.start, found.value.end;
      TokensNext(text, endIndex, matcher, imagePath, result);
      if endIndex < startIndex {
        result := result + [Plain(text[endIndex..startIndex])];
      }
      endIndex := lastIndex;
      result := result + [TokenOf(text[startIndex..lastIndex], imagePath)];
      found := matcher(text, lastIndex);
    }
    TokensNext(text, endIndex, matcher, imagePath, result);
    if endIndex < |text| {
      result := result + [Plain(text[endIndex..])];
    }
  }

  /** One round of the loop, or what follows it. */
  lemma TokensNext(text: JsString, from: nat, matcher: Matcher, imagePath: JsString -> Option<JsString>,
                   out: seq<Token>)
    requires Proper(matcher, text) && from <= |text|
    ensures match matcher(text, from)
            case None =>
              out + TokensFrom(text, from, matcher, imagePath) ==
              (if from < |text| then out + [Plain(text[from..])] else out)
            case Some(m) =>
              out + TokensFrom(text, from, matcher, imagePath) ==
              ((if from < m.start then out + [Plain(text[from..m.start])] else out)
               + [TokenOf(text[m.start..m.end], imagePath)]) + TokensFrom(text, m.end, matcher, imagePath)
  {
    hide TokenOf;
    match matcher(text, from) {
      case None =>
        assert out + [] == out;
      case Some(m) =>
        var plain, emoji := PlainIfAny(text[from..m.start]), [TokenOf(text[m.start..m.end], imagePath)];
        var rest := TokensFrom(text, m.end, matcher, imagePath);
        assert out + (plain + emoji + rest) == ((out + plain) + emoji) + rest;
        assert out + [] == out;
    }
  }

  lemma ConcatNext(tokens: seq<Token>, token: Token)
    ensures Concat(tokens + [token]) == Concat(tokens) + TextOf(token)
  {
    assert (tokens + [token])[..|tokens|] == tokens;
  }

  lemma {:induction false} ConcatAppend(a: seq<Token>, b: seq<Token>)
    ensures Concat(a + b) == Concat(a) + Concat(b)
    decreases |b|
  {
    hide Concat;
    if b == [] {
      ConcatOne(Plain([]));
      assert a + b == a;
    } else {
      var init, last := b[..|b| - 1], b[|b| - 1];
      ConcatAppend(a, init);
      ConcatNext(a + init, last);
      ConcatNext(init, last);
      assert a + b == (a + init) + [last] && b == init + [last];
    }
  }

  lemma ConcatOne(token: Token)
    ensures Concat([token]) == TextOf(token)
    ensures Concat([]) == []
  {
    assert [token][..0] == [];
  }

  /** The tokens partition the text: nothing is lost, added or empty. */
  lemma {:induction false} TokensPartition(text: JsString, from: nat, matcher: Matcher,
                                           imagePath: JsString -> Option<JsString>)
    requires Proper(matcher, text) && from <= |text|
    ensures var tokens := TokensFrom(text, from, matcher, imagePath);
            && Concat(tokens) == text[from..]
            && forall t :: t in tokens ==> TextOf(t) != []
    decreases |text| - from
  {
    hide Concat, CodepointOf;
    match matcher(text, from) {
      case None => ConcatPlain(text[from..]);
      case Some(m) =>
        var plain, emoji := PlainIfAny(text[from..m.start]), TokenOf(text[m.start..m.end], imagePath);
        var rest := TokensFrom(text, m.end, matcher, imagePath);
        TokensPartition(text, m.end, matcher, imagePath);
        assert Concat(plain + [emoji] + rest) == text[from..m.start] + text[m.start..m.end] + text[m.end..] by {
          ConcatPlain(text[from..m.start]);
          ConcatOne(emoji);
          ConcatAppend(plain, [emoji]);
          ConcatAppend(plain + [emoji], rest);
        }
        assert text[from..] == text[from..m.start] + text[m.start..m.end] + text[m.end..];
        assert forall t :: t in plain + [emoji] + rest ==> t in plain || t == emoji || t in rest;
    }
  }

  lemma ConcatPlain(text: JsString)
    ensures Concat(PlainIfAny(text)) == text
  {
    if text != [] {
      ConcatOne(Plain(text));
    }
  }

  /** The whole of `parseEmoji`. */
  lemma ParsePartitions(text: JsString, matcher: Matcher, imagePath: JsString -> Option<JsString>)
    requires Proper(matcher, text)
    ensures var tokens := TokensFrom(text, 0, matcher, imagePath);
            Concat(tokens) == text && forall t :: t in tokens ==> TextOf(t) != []
  {
    TokensPartition(text, 0, matcher, imagePath);
    assert text[0..] == text;
  }

  // ---- Which tokens are emoji -----------------------------------------------------------------

  /** The matches the regex finds, one after the other. */
  ghost function Matches(text: JsString, from: nat, matcher: Matcher): seq<Match>
    requires Proper(matcher, text) && from <= |text|
    decreases |text| - from
  {
    match matcher(text, from)
    case None => []
    case Some(m) => [m] + Matches(text, m.end, matcher)
  }

  /** What the image set has for the matches. */
  ghost function Images(text: JsString, matches: seq<Match>, imagePath: JsString -> Option<JsString>): seq<Token> {
    if matches == [] then []
    else
      var m := matches[0];
      var path := if m.start <= m.end <= |text| then imagePath(text[m.start..m.end]) else None;
      (if path.Some? then [EmojiInfo(text[m.start..m.end], path.value, CodepointOf(path.value))] else [])
      + Images(text, matches[1..], imagePath)
  }

  function IsImage(): Token -> bool { (t: Token) => t.EmojiInfo? }

  lemma FilterOne(token: Token)
    ensures Filter(IsImage(), [token]) == (if token.EmojiInfo? then [token] else []) && Filter(IsImage(), []) == []
  {
    assert [token][..0] == [];
  }

  /** The images among the tokens are those of the matches that the image set has, in order. */
  lemma {:induction false} ImagesAreMatches(text: JsString, from: nat, matcher: Matcher,
                                            imagePath: JsString -> Option<JsString>)
    requires Proper(matcher, text) && from <= |text|
    ensures Filter(IsImage(), TokensFrom(text, from, matcher, imagePath)) ==
            Images(text, Matches(text, from, matcher), imagePath)
    decreases |text| - from
  {
    hide Filter, CodepointOf;
    match matcher(text, from) {
      case None => FilterPlain(text[from..]);
      case Some(m) =>
        var plain, emoji := PlainIfAny(text[from..m.start]), TokenOf(text[m.start..m.end], imagePath);
        var rest := TokensFrom(text, m.end, matcher, imagePath);
        FilterPlain(text[from..m.start]);
        FilterOne(emoji);
        FilterAppend(IsImage(), plain, [emoji]);
        FilterAppend(IsImage(), plain + [emoji], rest);
        ImagesAreMatches(text, m.end, matcher, imagePath);
        assert Matches(text, from, matcher)[1..] == Matches(text, m.end, matcher);
    }
  }

  lemma FilterPlain(text: JsString)
    ensures Filter(IsImage(), PlainIfAny(text)) == []
  {
    FilterOne(Plain(text));
  }

  /** The code point is the file's name, whatever its directory, without the suffix. */
  lemma CodepointIsName(dir: JsString, name: JsString)
    requires 47 !in name
    ensures CodepointOf(dir + [47] + name + [46, 112, 110, 103]) == name
    ensures CodepointOf(name + [46, 112, 110, 103]) == name
  {
    hide AfterLastSlash;
    var suffix: JsString := [46, 112, 110, 103];
    NameWithSuffix(name, suffix);
    AfterSlash(dir + [47], name + suffix);
    AfterSlash([], name + suffix);
    assert [] + (name + suffix) == name + suffix;
    assert dir + [47] + name + suffix == (dir + [47]) + (name + suffix);
  }

  lemma NameWithSuffix(name: JsString, suffix: JsString)
    requires 47 !in name && suffix == [46, 112, 110, 103]
    ensures 47 !in name + suffix
    ensures var file := name + suffix; file[|file| - 4..] == suffix && file[..|file| - 4] == name
  {
  }

  lemma {:induction false} AfterSlash(dir: JsString, file: JsString)
    requires 47 !in file && (dir == [] || dir[|dir| - 1] == 47)
    ensures AfterLastSlash(dir + file) == file
    decreases |file|
  {
    if file == [] {
      assert dir + file == dir;
    } else {
      var init := file[..|file| - 1];
      AfterSlash(dir, init);
      assert (dir + file)[..|dir + file| - 1] == dir + init;
      assert file == init + [file[|file| - 1]];
    }
  }
}
