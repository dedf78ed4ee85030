/** src/helpers/password_strength.ts, over exact arithmetic. */
module PasswordStrength {
  import opened Prelude
  import opened Utf8

  datatype Strength = Bad | Weak | Good | Strong

  datatype Result = Result(score: int, strength: Strength)

  const UNDERSCORE: CodeUnit := 95

  // ---- Characters -----------------------------------------------------------------------------

  /** A surrogate pair or a single code unit: what iterating over a string yields. */
  type Character = JsString

  function First(s: JsString): (character: Character)
    requires s != []
    ensures 1 <= |character| <= 2 && |character| <= |s| && character == s[..|character|]
    ensures |character| == 2 <==> StartsWithPair(s)
  {
    if StartsWithPair(s) then s[..2] else s[..1]
  }

  function Characters(s: JsString): seq<Character> {
    if s == [] then [] else [First(s)] + Characters(s[|First(s)|..])
  }

  /** Whether appending the code unit completes a surrogate pair. */
  predicate CompletesPair(s: JsString, c: CodeUnit) { s != [] && IsHigh(s[|s| - 1]) && IsLow(c) }

  lemma TwoUnits(a: CodeUnit, c: CodeUnit)
    ensures Characters([a]) == [[a]]
    ensures Characters([a, c]) == if IsHigh(a) && IsLow(c) then [[a, c]] else [[a], [c]]
  {
    hide IsHigh, IsLow;
    assert [a][1..] == [] && [a, c][1..] == [c] && [c][1..] == [];
    assert [a][..1] == [a] && [c][..1] == [c] && [a, c][..1] == [a] && [a, c][..2] == [a, c] && [a, c][2..] == [];
  }

  /** Appending to two units or more leaves the first character alone. */
  lemma FirstStays(s: JsString, c: CodeUnit)
    requires |s| >= 2
    ensures var rest := s[|First(s)|..];
            && First(s + [c]) == First(s) && (s + [c])[|First(s)|..] == rest + [c]
            && (CompletesPair(s, c) <==> CompletesPair(rest, c))
  {
    HighIsNotLow(s[1]);
    hide IsHigh, IsLow;
    assert (s + [c])[..2] == s[..2] && (s + [c])[..1] == s[..1];
  }

  lemma HighIsNotLow(c: CodeUnit)
    ensures !(IsHigh(c) && IsLow(c))
  {
  }

  lemma AppendBehind(first: Character, rest: seq<Character>, more: seq<Character>)
    ensures forall x :: more == rest + [x] ==> [first] + more == ([first] + rest) + [x]
    ensures forall x :: rest != [] && more == rest[..|rest| - 1] + [x] ==>
              [first] + more == ([first] + rest)[..|[first] + rest| - 1] + [x]
  {
    if rest != [] {
      assert ([first] + rest)[..|rest|] == [first] + rest[..|rest| - 1];
    }
  }

  /** An appended code unit is a character of its own, or takes the last one into a pair. */
  lemma {:induction false} CharactersAppend(s: JsString, c: CodeUnit)
    ensures if CompletesPair(s, c) then
              && Characters(s) != [] && Characters(s)[|Characters(s)| - 1] == [s[|s| - 1]]
              && Characters(s + [c]) == Characters(s)[..|Characters(s)| - 1] + [[s[|s| - 1], c]]
            else Characters(s + [c]) == Characters(s) + [[c]]
    decreases |s|
  {
    hide IsHigh, IsLow, StartsWithPair;
    if s == [] {
      assert [] + [c] == [c];
      TwoUnits(c, c);
    } else if |s| == 1 {
      hide Characters;
      TwoUnits(s[0], c);
      assert s + [c] == [s[0], c] && s == [s[0]];
    } else {
      hide First, CompletesPair;
      var first, rest := First(s), s[|First(s)|..];
      FirstStays(s, c);
      CharactersAppend(rest, c);
      assert Characters(s) == [first] + Characters(rest);
      assert Characters(s + [c]) == [first] + Characters(rest + [c]);
      AppendBehind(first, Characters(rest), Characters(rest + [c]));
      if CompletesPair(s, c) {
        assert rest != [] && rest[|rest| - 1] == s[|s| - 1] by {
          SameEnd(s, c);
        }
      }
    }
  }

  lemma SameEnd(s: JsString, c: CodeUnit)
    requires s != [] && CompletesPair(s[|First(s)|..], c)
    ensures s[|First(s)|..] != []
  {
  }

  function Concat(characters: seq<Character>): JsString {
    if characters == [] then [] else characters[0] + Concat(characters[1..])
  }

  predicate IsCharacter(x: Character) { |x| == 1 || (|x| == 2 && StartsWithPair(x)) }

  predicate AreCharacters(characters: seq<Character>) {
    forall i :: 0 <= i < |characters| ==> IsCharacter(characters[i])
  }

  /** A lone high surrogate stands right before a lone low one. */
  predicate Joins(characters: seq<Character>)
    requires AreCharacters(characters)
  {
    |characters| >= 2 && (CompletesPair(characters[0], characters[1][0]) || Joins(characters[1..]))
  }

  /** Iterating over a string cuts it into characters, none of which run together. */
  lemma {:induction false} CharactersPartition(s: JsString)
    ensures Concat(Characters(s)) == s
    ensures AreCharacters(Characters(s))
    decreases |s|
  {
    hide IsHigh, IsLow;
    if s != [] {
      CharactersPartition(s[|First(s)|..]);
      assert Characters(s)[1..] == Characters(s[|First(s)|..]);
    }
  }

  /** Characters put one after the other are found again exactly when none of them run together. */
  lemma {:induction false} CharactersOfConcat(characters: seq<Character>)
    requires AreCharacters(characters)
    ensures |Characters(Concat(characters))| <= |characters|
    ensures Characters(Concat(characters)) == characters <==> !Joins(characters)
    ensures |Characters(Concat(characters))| == |characters| <==> !Joins(characters)
    decreases |characters|
  {
    if characters != [] {
      var x, rest := characters[0], characters[1..];
      FirstOfConcat(characters);
      hide IsHigh, IsLow, StartsWithPair, First, CompletesPair;
      if |characters| >= 2 && CompletesPair(x, rest[0][0]) {
        CharactersOfConcat(rest[1..]);
      } else {
        CharactersOfConcat(rest);
        assert characters == [x] + rest;
      }
    }
  }

  lemma FirstOfTwo(x: Character, t: JsString)
    requires IsCharacter(x)
    ensures if t != [] && CompletesPair(x, t[0]) then
              |x| == 1 && Characters(x + t) == [x + t[..1]] + Characters(t[1..])
            else Characters(x + t) == [x] + Characters(t)
  {
    HighIsNotLow(x[|x| - 1]);
    hide IsHigh, IsLow;
    var s := x + t;
    assert s[|x|..] == t && s[..|x|] == x;
    if t != [] && CompletesPair(x, t[0]) {
      assert s[..2] == x + t[..1] && s[2..] == t[1..];
    }
  }

  lemma LowStartsAlone(x: Character, y: Character)
    requires IsCharacter(y) && CompletesPair(x, y[0])
    ensures |y| == 1
  {
  }

  lemma FirstOfConcat(characters: seq<Character>)
    requires characters != [] && AreCharacters(characters)
    ensures var x, rest, s := characters[0], characters[1..], Concat(characters);
            if |characters| >= 2 && CompletesPair(x, rest[0][0]) then
              Characters(s) == [x + rest[0]] + Characters(Concat(rest[1..]))
            else Characters(s) == [x] + Characters(Concat(rest))
  {
    hide Characters, CompletesPair, StartsWithPair;
    var x, rest := characters[0], characters[1..];
    FirstOfTwo(x, Concat(rest));
    if rest != [] {
      assert rest[0] == characters[1] && IsCharacter(rest[0]);
      assert Concat(rest)[0] == rest[0][0];
      if CompletesPair(x, rest[0][0]) {
        LowStartsAlone(x, rest[0]);
        assert Concat(rest)[..1] == rest[0] && Concat(rest)[1..] == Concat(rest[1..]);
      }
    }
  }

  // ---- What the score should be ---------------------------------------------------------------

  /** 5 times the harmonic number: what a character earns that occurs `count` times. */
  function Award(count: nat): real {
    if count == 0 then 0.0 else Award(count - 1) + 5.0 / (count as real)
  }

  /** The awards of some characters. */
  ghost function AwardsOf(characters: set<Character>, counts: multiset<Character>): real {
    if characters == {} then 0.0
    else
      var x :| x in characters;
      Award(counts[x]) + AwardsOf(characters - {x}, counts)
  }

  ghost function Keys(counts: multiset<Character>): set<Character> { set x | x in counts }

  ghost function Awards(counts: multiset<Character>): real { AwardsOf(Keys(counts), counts) }

  predicate IsDigit(c: CodeUnit) { 48 <= c <= 57 }

  predicate IsLowerCase(c: CodeUnit) { 97 <= c <= 122 }

  predicate IsUpperCase(c: CodeUnit) { 65 <= c <= 90 }

  predicate IsNonWord(c: CodeUnit) { !IsDigit(c) && !IsLowerCase(c) && !IsUpperCase(c) && c != UNDERSCORE }

  /** Without the `u` flag regular expressions match code units. */
  predicate Any(p: CodeUnit -> bool, password: JsString) { exists i :: 0 <= i < |password| && p(password[i]) }

  function One(b: bool): nat { if b then 1 else 0 }

  function Categories(password: JsString): nat {
    One(Any(IsDigit, password)) + One(Any(IsLowerCase, password))
    + One(Any(IsUpperCase, password)) + One(Any(IsNonWord, password))
  }

  /** `Math.trunc` */
  function Trunc(x: real): int { if x >= 0.0 then x.Floor else -(-x).Floor }

  function StrengthOf(score: int): Strength {
    if score > 80 then Strong else if score > 60 then Good else if score > 40 then Weak else Bad
  }

  ghost function Score(password: JsString): Result {
    if password == [] then Result(0, Bad)
    else
      var score := Trunc(Points(password));
      Result(score, StrengthOf(score))
  }

  function Rank(strength: Strength): nat {
    match strength case Bad => 0 case Weak => 1 case Good => 2 case Strong => 3
  }

  /** Awards for the characters, and a bonus for every category but one. */
  ghost function Points(password: JsString): real {
    Awards(multiset(Characters(password))) + ((Categories(password) - 1) * 10) as real
  }

  // ---- The loop -------------------------------------------------------------------------------

  method ScorePassword(password: JsString) returns (result: Result)
    ensures result == Score(password)
  {
    hide Awards, Categories, First, Characters, Points, Trunc;
    if |password| == 0 {
      return Result(0, Bad);
    }
    var score := 0.0;
    var letterCount: map<Character, nat> := map[];
    ghost var seen: seq<Character> := [];
    AwardsOfNothing();
    var i := 0;
    while i < |password|
      invariant i <= |password| && seen + Characters(password[i..]) == Characters(password)
      invariant IsCount(letterCount, seen)
      invariant score == Awards(multiset(seen))
    {
      var character := First(password[i..]);
      NextCharacter(password, i, seen);
      CountOneMore(letterCount, seen, character);
      letterCount := letterCount[character := (if character in letterCount then letterCount[character] else 0) + 1];
      score := score + 5.0 / (letterCount[character] as real);
      seen := seen + [character];
      i := i + |character|;
    }
    NothingLeft(password, i, seen);
    score := score + ((Categories(password) - 1) * 10) as real;
    assert score == Points(password) by {
      PointsAre(password);
    }
    var truncated := Trunc(score);
    result := Result(truncated, StrengthOf(truncated));
  }

  ghost predicate IsCount(letterCount: map<Character, nat>, seen: seq<Character>) {
    forall x: Character :: multiset(seen)[x] == if x in letterCount then letterCount[x] else 0
  }

  lemma CountOneMore(letterCount: map<Character, nat>, seen: seq<Character>, x: Character)
    requires IsCount(letterCount, seen)
    ensures var count := (if x in letterCount then letterCount[x] else 0) + 1;
            && IsCount(letterCount[x := count], seen + [x])
            && Awards(multiset(seen + [x])) == Awards(multiset(seen)) + 5.0 / (count as real)
  {
    hide Awards;
    assert multiset(seen + [x]) == multiset(seen) + multiset{x};
    OneMore(multiset(seen), x);
  }

  lemma NextCharacter(s: JsString, i: nat, seen: seq<Character>)
    requires i < |s| && seen + Characters(s[i..]) == Characters(s)
    ensures var x := First(s[i..]);
            i + |x| <= |s| && (seen + [x]) + Characters(s[i + |x|..]) == Characters(s)
  {
    hide First;
    var x := First(s[i..]);
    assert s[i..][|x|..] == s[i + |x|..];
    assert (seen + [x]) + Characters(s[i + |x|..]) == seen + ([x] + Characters(s[i + |x|..]));
  }

  lemma NothingLeft(s: JsString, i: nat, seen: seq<Character>)
    requires i == |s| && seen + Characters(s[i..]) == Characters(s)
    ensures seen == Characters(s)
  {
    assert Characters(s[i..]) == [];
  }

  lemma PointsAre(s: JsString)
    ensures Points(s) == Awards(multiset(Characters(s))) + ((Categories(s) - 1) * 10) as real
  {
  }

  // ---- Awards ---------------------------------------------------------------------------------

  /** Any character may be taken out first. */
  lemma {:induction false} TakeOut(characters: set<Character>, counts: multiset<Character>, x: Character)
    requires x in characters
    ensures AwardsOf(characters, counts) == Award(counts[x]) + AwardsOf(characters - {x}, counts)
  {
    var y :| y in characters && AwardsOf(characters, counts) == Award(counts[y]) + AwardsOf(characters - {y}, counts);
    if x != y {
      TakeOut(characters - {y}, counts, x);
      TakeOut(characters - {x}, counts, y);
      assert characters - {y} - {x} == characters - {x} - {y};
    }
  }

  lemma {:induction false} SameCounts(characters: set<Character>, a: multiset<Character>, b: multiset<Character>)
    requires forall x :: x in characters ==> a[x] == b[x]
    ensures AwardsOf(characters, a) == AwardsOf(characters, b)
  {
    if characters != {} {
      var x :| x in characters;
      TakeOut(characters, a, x);
      TakeOut(characters, b, x);
      SameCounts(characters - {x}, a, b);
    }
  }

  lemma AwardsOfNothing()
    ensures Awards(multiset{}) == 0.0
  {
    assert Keys(multiset{}) == {};
  }

  /** Another occurrence of a character adds what the loop adds. */
  lemma OneMore(counts: multiset<Character>, x: Character)
    ensures Awards(counts + multiset{x}) == Awards(counts) + 5.0 / ((counts[x] + 1) as real)
  {
    hide AwardsOf;
    var more := counts + multiset{x};
    var before, after := Keys(counts), Keys(more);
    var others := after - {x};
    TakeOut(after, more, x);
    SameCounts(others, more, counts);
    if x in counts {
      TakeOut(before, counts, x);
      assert before - {x} == others;
    } else {
      assert before == others;
    }
  }

  lemma {:induction false} AwardsAreNotNegative(characters: set<Character>, counts: multiset<Character>)
    ensures AwardsOf(characters, counts) >= 0.0
  {
    if characters != {} {
      var x :| x in characters;
      TakeOut(characters, counts, x);
      AwardIsNotNegative(counts[x]);
      AwardsAreNotNegative(characters - {x}, counts);
    }
  }

  lemma {:induction false} AwardIsNotNegative(count: nat)
    ensures Award(count) >= 0.0
  {
    if count > 0 {
      AwardIsNotNegative(count - 1);
    }
  }

  // ---- Order ----------------------------------------------------------------------------------

  lemma {:induction false} UnitsOfConcat(characters: seq<Character>, c: CodeUnit)
    ensures c in Concat(characters) <==> exists i :: 0 <= i < |characters| && c in characters[i]
  {
    if characters != [] {
      UnitsOfConcat(characters[1..], c);
      assert forall i :: 1 <= i < |characters| ==> characters[i] == characters[1..][i - 1];
    }
  }

  /** Reordered characters have the same code units. */
  lemma AnyOfSame(p: CodeUnit -> bool, a: seq<Character>, b: seq<Character>)
    requires multiset(a) == multiset(b) && Any(p, Concat(a))
    ensures Any(p, Concat(b))
  {
    var i :| 0 <= i < |Concat(a)| && p(Concat(a)[i]);
    var c := Concat(a)[i];
    UnitsOfConcat(a, c);
    var j :| 0 <= j < |a| && c in a[j];
    assert a[j] in multiset(b);
    UnitsOfConcat(b, c);
  }

  lemma CategoriesOfSame(a: seq<Character>, b: seq<Character>)
    requires multiset(a) == multiset(b)
    ensures Categories(Concat(a)) == Categories(Concat(b))
  {
    forall p: CodeUnit -> bool ensures Any(p, Concat(a)) == Any(p, Concat(b)) {
      if Any(p, Concat(a)) {
        AnyOfSame(p, a, b);
      }
      if Any(p, Concat(b)) {
        AnyOfSame(p, b, a);
      }
    }
  }

  /**
    * Reordering the characters changes nothing, as long as no lone high surrogate gets right before a
    * lone low one; exactly then the reordered password still has the same characters.
    */
  lemma ScoreIgnoresOrder(password: JsString, order: seq<Character>)
    requires multiset(order) == multiset(Characters(password))
    ensures AreCharacters(order)
    ensures multiset(Characters(Concat(order))) == multiset(order) <==> !Joins(order)
    ensures !Joins(order) ==> Score(Concat(order)) == Score(password)
  {
    hide Characters, Categories, Awards, Joins, Trunc, IsCharacter;
    var characters := Characters(password);
    CharactersPartition(password);
    forall i | 0 <= i < |order| ensures IsCharacter(order[i]) {
      assert order[i] in multiset(characters);
      var j :| 0 <= j < |characters| && characters[j] == order[i];
    }
    CharactersOfConcat(order);
    assert |multiset(order)| == |order| && |multiset(Characters(Concat(order)))| == |Characters(Concat(order))|;
    CategoriesOfSame(order, characters);
    EmptyConcat(order);
    EmptyConcat(characters);
    assert |multiset(characters)| == |characters|;
  }

  lemma EmptyConcat(characters: seq<Character>)
    requires AreCharacters(characters)
    ensures Concat(characters) == [] <==> characters == []
  {
  }

  /** For lone surrogates the order does matter. */
  lemma OrderMattersForLoneSurrogates()
    ensures Score([0xDC00, 0xD800]).score == 10 && Score([0xD800, 0xDC00]).score == 5
  {
    hide Characters, Categories, Awards, Trunc;
    TwoUnits(0xDC00, 0xD800);
    TwoUnits(0xD800, 0xDC00);
    OnlyNonWords([0xDC00, 0xD800]);
    OnlyNonWords([0xD800, 0xDC00]);
    assert Distinct([[0xDC00 as CodeUnit], [0xD800]]) && Distinct([[0xD800 as CodeUnit, 0xDC00]]);
    DistinctCharacters([0xDC00, 0xD800]);
    DistinctCharacters([0xD800, 0xDC00]);
  }

  lemma OnlyNonWords(s: JsString)
    requires s != [] && forall i :: 0 <= i < |s| ==> s[i] >= 0x80
    ensures Categories(s) == 1
  {
    assert IsNonWord(s[0]);
  }

  // ---- Repetitions ----------------------------------------------------------------------------

  /** Without repetitions every character earns five points, and every further category ten. */
  lemma DistinctCharacters(password: JsString)
    requires password != [] && Distinct(Characters(password))
    ensures var score := 5 * |Characters(password)| + 10 * (Categories(password) - 1);
            && Points(password) == score as real
            && Score(password).score == score
            && (Score(password).strength == Strong <==> score > 80)
            && (Score(password).strength == Bad <==> score <= 40)
  {
    hide Awards, Categories, Characters;
    AwardsOfDistinct(Characters(password));
  }

  lemma {:induction false} AwardsOfDistinct(characters: seq<Character>)
    requires Distinct(characters)
    ensures Awards(multiset(characters)) == (5 * |characters|) as real
  {
    hide Awards;
    if characters == [] {
      AwardsOfNothing();
    } else {
      var init, last := characters[..|characters| - 1], characters[|characters| - 1];
      AwardsOfDistinct(init);
      assert characters == init + [last] && last !in init;
      assert multiset(init)[last] == 0;
      OneMore(multiset(init), last);
    }
  }

  // ---- Longer passwords -----------------------------------------------------------------------

  lemma TruncIsMonotone(x: real, y: real)
    requires x <= y
    ensures Trunc(x) <= Trunc(y)
  {
  }

  lemma AnyGrows(p: CodeUnit -> bool, s: JsString, c: CodeUnit)
    ensures Any(p, s + [c]) <==> Any(p, s) || p(c)
  {
    assert (s + [c])[|s|] == c;
    forall i | 0 <= i < |s| ensures (s + [c])[i] == s[i] {
    }
  }

  lemma CategoriesGrow(s: JsString, c: CodeUnit)
    ensures Categories(s) <= Categories(s + [c])
    ensures Any(IsNonWord, s) && IsNonWord(c) ==> Categories(s) == Categories(s + [c])
    ensures Categories([]) == 0 && Categories([c]) == One(c != UNDERSCORE)
  {
    AnyGrows(IsDigit, s, c);
    AnyGrows(IsLowerCase, s, c);
    AnyGrows(IsUpperCase, s, c);
    AnyGrows(IsNonWord, s, c);
    assert [c][0] == c;
  }

  lemma SurrogateIsNonWord(c: CodeUnit)
    requires IsHigh(c) || IsLow(c)
    ensures IsNonWord(c)
  {
  }

  function Count(s: JsString, x: Character): nat { multiset(Characters(s))[x] }

  lemma HighIsCounted(s: JsString, c: CodeUnit)
    requires CompletesPair(s, c)
    ensures Count(s, [s[|s| - 1]]) > 0
  {
    CharactersAppend(s, c);
    assert Characters(s)[|Characters(s)| - 1] in multiset(Characters(s));
  }

  /**
    * What completing a pair costs: the pair's award instead of that of the high surrogate, which was
    * a character of its own before. It is negative when the surrogate was repeated more often.
    */
  ghost function Loss(s: JsString, c: CodeUnit): real
    requires CompletesPair(s, c)
  {
    HighIsCounted(s, c);
    5.0 / (Count(s, [s[|s| - 1]]) as real) - 5.0 / ((Count(s, [s[|s| - 1], c]) + 1) as real)
  }

  lemma PointsOfPair(s: JsString, c: CodeUnit)
    requires CompletesPair(s, c)
    ensures Points(s + [c]) == Points(s) - Loss(s, c) && Points(s) >= 0.0 && Points(s + [c]) >= 0.0
  {
    hide Awards, Categories, Characters, IsHigh, IsLow, IsNonWord;
    var characters, high := Characters(s), s[|s| - 1];
    CharactersAppend(s, c);
    var init := characters[..|characters| - 1];
    assert characters == init + [[high]];
    var rest := multiset(init);
    assert multiset(characters) == rest + multiset{[high]};
    assert multiset(Characters(s + [c])) == rest + multiset{[high, c]};
    OneMore(rest, [high]);
    OneMore(rest, [high, c]);
    SurrogateIsNonWord(high);
    SurrogateIsNonWord(c);
    assert Any(IsNonWord, s);
    CategoriesGrow(s, c);
    PointsAreNotNegative(s);
    assert (s + [c])[|s| - 1] == high;
    PointsAreNotNegative(s + [c]);
  }

  lemma PointsAreNotNegative(s: JsString)
    requires Any(IsNonWord, s)
    ensures Points(s) >= 0.0
  {
    hide AwardsOf;
    AwardsAreNotNegative(Keys(multiset(Characters(s))), multiset(Characters(s)));
  }

  lemma PointsGrow(s: JsString, c: CodeUnit)
    requires !CompletesPair(s, c)
    ensures Points(s) <= Points(s + [c])
  {
    hide Awards, Categories, Characters;
    CharactersAppend(s, c);
    CategoriesGrow(s, c);
    assert multiset(Characters(s) + [[c]]) == multiset(Characters(s)) + multiset{[c]};
    OneMore(multiset(Characters(s)), [c]);
  }

  lemma OneCharacter(c: CodeUnit)
    ensures Points([c]) == if c == UNDERSCORE then -5.0 else 5.0
    ensures Trunc(5.0) == 5 && Trunc(-5.0) == -5
  {
    hide Awards, Categories, Characters;
    CategoriesGrow([], c);
    TwoUnits(c, c);
    AwardsOfNothing();
    assert multiset([[c]]) == multiset{} + multiset{[c]};
    OneMore(multiset{}, [c]);
  }

  /** The loss is more than the fraction that truncation drops anyway. */
  ghost predicate LosesScore(password: JsString, c: CodeUnit) {
    if password == [] then c == UNDERSCORE
    else CompletesPair(password, c) && Points(password) - Loss(password, c) < Score(password).score as real
  }

  /** The loss takes the points below what a score above the threshold needs. */
  ghost predicate DropsBelow(password: JsString, c: CodeUnit, threshold: nat)
    requires CompletesPair(password, c)
  {
    Points(password) - Loss(password, c) < (threshold + 1) as real <= Points(password)
  }

  ghost predicate LosesStrength(password: JsString, c: CodeUnit) {
    && CompletesPair(password, c)
    && (DropsBelow(password, c, 40) || DropsBelow(password, c, 60) || DropsBelow(password, c, 80))
  }

  /**
    * A longer password scores no less, with two exceptions: a lone underscore scores below nothing, and
    * a low surrogate may complete a pair worth less than the high surrogate was. Only the latter can
    * weaken the password.
    */
  lemma LongerIsNotWeaker(password: JsString, c: CodeUnit)
    ensures Score(password + [c]).score < Score(password).score <==> LosesScore(password, c)
    ensures Rank(Score(password + [c]).strength) < Rank(Score(password).strength) <==> LosesStrength(password, c)
  {
    if password == [] {
      hide Points, Trunc;
      assert [] + [c] == [c];
      OneCharacter(c);
    } else if CompletesPair(password, c) {
      hide Points, CompletesPair, Loss;
      PointsOfPair(password, c);
    } else {
      hide Points, Trunc, CompletesPair, Loss;
      PointsGrow(password, c);
      TruncIsMonotone(Points(password), Points(password + [c]));
    }
  }

  /** Such passwords exist: "abcda" with two surrogates of U+10000 and a third one gets weaker by the fourth. */
  lemma PairWeakens()
    ensures var password: JsString := [97, 98, 99, 100, 97, 0xD800, 0xDC00, 0xD800];
            && Score(password) == Result(42, Weak) && Score(password + [0xDC00]) == Result(40, Bad)
  {
    hide Points, Loss, Characters, Categories, Distinct;
    var password: JsString := [97, 98, 99, 100, 97, 0xD800, 0xDC00, 0xD800];
    var pair, high: Character := [0xD800, 0xDC00], [0xD800];
    CharactersOfExample(pair, high);
    CategoriesOfExample(password);
    assert CompletesPair(password, 0xDC00);
    assert Distinct([[97], [98], [99], [100], pair, high]) by {
      ExampleIsDistinct(pair, high);
    }
    OneRepetition(password, 0xDC00, [97], [98], [99], [100], pair, high);
    PointsOfPair(password, 0xDC00);
  }

  /** Six characters, the first of them twice, and the last one half of the one before. */
  lemma OneRepetition(s: JsString, unit: CodeUnit,
                      a: Character, b: Character, c: Character, d: Character, e: Character, f: Character)
    requires Characters(s) == [a, b, c, d, a, e, f] && Distinct([a, b, c, d, e, f]) && Categories(s) == 2
    requires CompletesPair(s, unit) && f == [s[|s| - 1]] && e == [s[|s| - 1], unit]
    ensures Points(s) == 42.5 && Loss(s, unit) == 2.5
  {
    hide Characters, Categories, Awards, CompletesPair, Loss, Points, Distinct;
    OnceEach(a, b, c, d, e, f);
    AwardsOfDistinct([a, b, c, d, e, f]);
    PointsAreSum(s, multiset([a, b, c, d, e, f]), a);
    HalfLoss(s, unit);
  }

  lemma PointsAreSum(s: JsString, counts: multiset<Character>, a: Character)
    requires multiset(Characters(s)) == counts + multiset{a} && counts[a] == 1
    requires Awards(counts) == 30.0 && Categories(s) == 2
    ensures Points(s) == 42.5
  {
    hide Characters, Categories, Awards;
    OneMore(counts, a);
  }

  lemma HalfLoss(s: JsString, c: CodeUnit)
    requires CompletesPair(s, c) && Count(s, [s[|s| - 1]]) == 1 && Count(s, [s[|s| - 1], c]) == 1
    ensures Loss(s, c) == 2.5
  {
    hide CompletesPair, Count;
  }

  lemma OnceEach<T>(a: T, b: T, c: T, d: T, e: T, f: T)
    requires Distinct([a, b, c, d, e, f])
    ensures multiset([a, b, c, d, a, e, f]) == multiset([a, b, c, d, e, f]) + multiset{a}
    ensures multiset([a, b, c, d, e, f])[a] == 1
    ensures multiset([a, b, c, d, a, e, f])[e] == 1 && multiset([a, b, c, d, a, e, f])[f] == 1
  {
    var s := [a, b, c, d, e, f];
    assert s[0] != s[1] && s[0] != s[2] && s[0] != s[3] && s[0] != s[4] && s[0] != s[5];
    assert s[4] != s[1] && s[4] != s[2] && s[4] != s[3] && s[4] != s[5];
    assert s[5] != s[1] && s[5] != s[2] && s[5] != s[3];
  }

  lemma ExampleIsDistinct(pair: Character, high: Character)
    requires |pair| == 2 && high == [0xD800]
    ensures Distinct([[97], [98], [99], [100], pair, high])
  {
    var a, b, c, d: Character := [97], [98], [99], [100];
    assert a[0] == 97 && b[0] == 98 && c[0] == 99 && d[0] == 100 && high[0] == 0xD800;
    assert |a| == |b| == |c| == |d| == |high| == 1;
  }

  lemma CharactersOfExample(pair: Character, high: Character)
    requires pair == [0xD800, 0xDC00] && high == [0xD800]
    ensures Characters([97, 98, 99, 100, 97, 0xD800, 0xDC00, 0xD800]) == [[97], [98], [99], [100], [97], pair, high]
  {
    hide Characters;
    TwoUnits(0xD800, 0xD800);
    FirstOfTwo(pair, high);
    FirstOfTwo([97], pair + high);
    FirstOfTwo([100], [97] + (pair + high));
    FirstOfTwo([99], [100] + ([97] + (pair + high)));
    FirstOfTwo([98], [99] + ([100] + ([97] + (pair + high))));
    FirstOfTwo([97], [98] + ([99] + ([100] + ([97] + (pair + high)))));
    assert [97] + ([98] + ([99] + ([100] + ([97] + (pair + high))))) == [97, 98, 99, 100, 97, 0xD800, 0xDC00, 0xD800];
  }

  lemma CategoriesOfExample(s: JsString)
    requires s == [97, 98, 99, 100, 97, 0xD800, 0xDC00, 0xD800]
    ensures Categories(s) == 2
  {
    assert IsLowerCase(s[0]) && IsNonWord(s[5]);
  }

  // ---- Categories and strengths ---------------------------------------------------------------

  datatype Class = Digit | Lower | Upper | Underscore | Other

  function ClassOf(c: CodeUnit): Class {
    if 48 <= c <= 57 then Digit else if 97 <= c <= 122 then Lower else if 65 <= c <= 90 then Upper
    else if c == 95 then Underscore else Other
  }

  ghost predicate Occurs(s: JsString, kind: Class) { exists i :: 0 <= i < |s| && ClassOf(s[i]) == kind }

  lemma OccursIs(s: JsString)
    ensures Any(IsDigit, s) <==> Occurs(s, Digit)
    ensures Any(IsLowerCase, s) <==> Occurs(s, Lower)
    ensures Any(IsUpperCase, s) <==> Occurs(s, Upper)
    ensures Any(IsNonWord, s) <==> Occurs(s, Other)
  {
  }

  /** Every class of characters that occurs counts once, but for the underscore. */
  lemma CategoriesAreClasses(s: JsString)
    ensures Categories(s) ==
            One(Occurs(s, Digit)) + One(Occurs(s, Lower)) + One(Occurs(s, Upper)) + One(Occurs(s, Other))
  {
    OccursIs(s);
  }

  /** The strength is the number of thresholds the score has passed. */
  lemma StrengthCountsThresholds(password: JsString)
    ensures var score := Score(password).score;
            Rank(Score(password).strength) == One(score > 40) + One(score > 60) + One(score > 80)
    ensures Score([]).score == 0
  {
    hide Points, Trunc;
  }

  /** Negative points are truncated towards zero. */
  lemma TwoUnderscores()
    ensures Points([UNDERSCORE, UNDERSCORE]) == -2.5 && Score([95, 95]).score == -2
  {
    hide Awards, Characters, Any;
    TwoUnits(95, 95);
    AwardsOfNothing();
    assert multiset([[95 as CodeUnit], [95]]) == (multiset{} + multiset{[95]}) + multiset{[95]};
    OneMore(multiset{}, [95]);
    OneMore(multiset{} + multiset{[95]}, [95]);
    CategoriesAreClasses([95, 95]);
  }
}
