/** The lookup tables of src/helpers/emoji.ts, built once from the emoji library's data. */
module EmojiIndex {
  import opened Prelude
  import opened Lists
  import opened OrderedMaps

  type Name = JsString
  type Emoji = JsString

  /** One record of the library's data: the characters, and every name they go by. */
  datatype Entry = Entry(emoji: Emoji, names: seq<Name>)

  // ---- What the tables should hold ------------------------------------------------------------

  /** Every (name, emoji) pair of the data, in order. */
  function Pairs(data: seq<Entry>): seq<(Name, Emoji)> {
    if data == [] then []
    else Pairs(data[..|data| - 1]) + PairsOf(data[|data| - 1].emoji, data[|data| - 1].names)
  }

  function PairsOf(emoji: Emoji, names: seq<Name>): seq<(Name, Emoji)> {
    if names == [] then []
    else PairsOf(emoji, names[..|names| - 1]) + [(names[|names| - 1], emoji)]
  }

  /** A name given twice means what it was given last. */
  function LastMeaning(pairs: seq<(Name, Emoji)>): map<Name, Emoji> {
    if pairs == [] then map[]
    else LastMeaning(pairs[..|pairs| - 1])[pairs[|pairs| - 1].0 := pairs[|pairs| - 1].1]
  }

  function Names(pairs: seq<(Name, Emoji)>): (names: seq<Name>)
    ensures |names| == |pairs| && forall i :: 0 <= i < |pairs| ==> names[i] == pairs[i].0
  {
    seq(|pairs|, i requires 0 <= i < |pairs| => pairs[i].0)
  }

  /** The listed names that the library knows, each once. */
  function Listed(order: seq<Name>, known: set<Name>): seq<Name> {
    Firsts(Filter(In(known), order))
  }

  /** The names in picker order: first those listed there, then the others as the library has them. */
  function PickerOrder(pairs: seq<(Name, Emoji)>, order: seq<Name>): seq<Name> {
    Listed(order, LastMeaning(pairs).Keys) + Without(Firsts(Names(pairs)), set n | n in order)
  }

  lemma {:induction false} LastMeaningKeys(pairs: seq<(Name, Emoji)>)
    ensures forall n :: n in LastMeaning(pairs) <==> n in Names(pairs)
  {
    if pairs != [] {
      var init := pairs[..|pairs| - 1];
      LastMeaningKeys(init);
      assert Names(pairs) == Names(init) + [pairs[|pairs| - 1].0];
    }
  }

  lemma PairsNext(pairs: seq<(Name, Emoji)>, pair: (Name, Emoji))
    ensures LastMeaning(pairs + [pair]) == LastMeaning(pairs)[pair.0 := pair.1]
    ensures Firsts(Names(pairs + [pair])) ==
            if pair.0 in Firsts(Names(pairs)) then Firsts(Names(pairs)) else Firsts(Names(pairs)) + [pair.0]
  {
    assert (pairs + [pair])[..|pairs|] == pairs;
    assert Names(pairs + [pair]) == Names(pairs) + [pair.0];
    FirstsNext(Names(pairs), pair.0);
    FirstsHave(Names(pairs));
  }

  lemma NoPairs()
    ensures Pairs([]) == [] && LastMeaning([]) == map[] && Firsts(Names([])) == []
  {
  }

  lemma NoNames(before: seq<(Name, Emoji)>, emoji: Emoji)
    ensures before + PairsOf(emoji, []) == before
  {
  }

  lemma NextName(before: seq<(Name, Emoji)>, emoji: Emoji, names: seq<Name>, j: nat)
    requires j < |names|
    ensures before + PairsOf(emoji, names[..j + 1]) == before + PairsOf(emoji, names[..j]) + [(names[j], emoji)]
  {
    assert names[..j + 1][..j] == names[..j];
  }

  lemma NextEntry(data: seq<Entry>, i: nat)
    requires i < |data|
    ensures Pairs(data[..i + 1]) == Pairs(data[..i]) + PairsOf(data[i].emoji, data[i].names)
  {
    assert data[..i + 1][..i] == data[..i];
  }

  // ---- SHORTNAMES -----------------------------------------------------------------------------

  /** Every name of the library's data. */
  method CollectNames(data: seq<Entry>) returns (remaining: OrderedMap<Name, Emoji>)
    ensures fresh(remaining) && remaining.Valid()
    ensures remaining.entries == LastMeaning(Pairs(data)) && remaining.keys == Firsts(Names(Pairs(data)))
  {
    hide PairsOf, Pairs, LastMeaning, Firsts;
    remaining := new OrderedMap();
    NoPairs();
    for i := 0 to |data|
      invariant fresh(remaining) && remaining.Valid()
      invariant remaining.entries == LastMeaning(Pairs(data[..i]))
      invariant remaining.keys == Firsts(Names(Pairs(data[..i])))
    {
      var emoji, names := data[i].emoji, data[i].names;
      ghost var before := Pairs(data[..i]);
      assert names[..0] == [];
      NoNames(before, emoji);
      for j := 0 to |names|
        invariant fresh(remaining) && remaining.Valid()
        invariant remaining.entries == LastMeaning(before + PairsOf(emoji, names[..j]))
        invariant remaining.keys == Firsts(Names(before + PairsOf(emoji, names[..j])))
      {
        PairsNext(before + PairsOf(emoji, names[..j]), (names[j], emoji));
        NextName(before, emoji, names, j);
        FirstsHave(Names(before + PairsOf(emoji, names[..j])));
        remaining.Set(names[j], emoji);
      }
      assert names[..|names|] == names;
      NextEntry(data, i);
    }
    assert data[..|data|] == data;
  }

  /** The effect of one entry of the picker's list on both orders. */
  lemma ListedNext(order: seq<Name>, known: seq<Name>, name: Name)
    ensures var more := order + [name];
            var dropped, dropped' := set n | n in order, set n | n in more;
            var ids, ids' := Listed(order, set n | n in known), Listed(more, set n | n in known);
            && (name in Without(known, dropped) <==> name in known && name !in order)
            && (name in ids <==> name in order && name in known)
            && (name in known && name !in order ==>
                  ids' == ids + [name] && Without(known, dropped') == Without(Without(known, dropped), {name}))
            && (!(name in known && name !in order) ==>
                  ids' == ids && Without(known, dropped') == Without(known, dropped))
  {
    hide Filter, Firsts;
    var more := order + [name];
    var keys, dropped, dropped' := set n | n in known, set n | n in order, set n | n in more;
    assert dropped' == dropped + {name};
    FilterHas(NotIn(dropped), known);
    FilterHas(In(keys), order);
    FilterNext(In(keys), order, name);
    assert Filter(In(keys), order) + [] == Filter(In(keys), order);
    FirstsHave(Filter(In(keys), order));
    FirstsNext(Filter(In(keys), order), name);
    if name in known && name !in order {
      WithoutTwice(known, dropped, {name});
    } else {
      FilterSame(NotIn(dropped'), NotIn(dropped), known);
    }
  }

  /** `names` and `remaining` split what the library knows, in the first loop of the construction. */
  ghost predicate Split(all: map<Name, Emoji>, names: map<Name, Emoji>, remaining: map<Name, Emoji>) {
    && names.Keys !! remaining.Keys
    && all == names + remaining
  }

  /** Nothing the library knows is lost or changed, and the names come in picker order. */
  method BuildShortnames(data: seq<Entry>, order: seq<Name>) returns (names: OrderedMap<Name, Emoji>)
    ensures fresh(names) && names.Valid()
    ensures names.entries == LastMeaning(Pairs(data))
    ensures names.keys == PickerOrder(Pairs(data), order)
  {
    hide Filter, Firsts, LastMeaning, Pairs;
    names := new OrderedMap();
    var remaining := CollectNames(data);
    ghost var all, known := remaining.entries, remaining.keys;
    WithoutNone(known);
    NothingListed(known);
    assert (set n | n in order[..0]) == {};
    for i := 0 to |order|
      invariant fresh(names) && fresh(remaining) && names != remaining && names.Valid() && remaining.Valid()
      invariant names.keys == Listed(order[..i], set n | n in known)
      invariant remaining.keys == Without(known, set n | n in order[..i])
      invariant Split(all, names.entries, remaining.entries)
    {
      ListedNext(order[..i], known, order[i]);
      assert order[..i + 1] == order[..i] + [order[i]];
      MoveEntry(all, names.entries, remaining.entries, order[i]);
      var emoji := remaining.Get(order[i]);
      if emoji.Some? {
        names.Set(order[i], emoji.value);
        remaining.Delete(order[i]);
      }
    }
    assert order[..|order|] == order;
    AppendRest(names, remaining, all);
    assert (set n | n in known) == all.Keys;
  }

  lemma NothingListed(known: seq<Name>)
    ensures Listed([], set n | n in known) == []
  {
  }

  lemma MoveEntry(all: map<Name, Emoji>, names: map<Name, Emoji>, remaining: map<Name, Emoji>, name: Name)
    requires Split(all, names, remaining)
    ensures name in remaining ==> Split(all, names[name := remaining[name]], remaining - {name})
  {
  }

  lemma NextIsNew(keys: seq<Name>, rest: seq<Name>, i: nat)
    requires i < |rest| && Distinct(rest) && forall n :: n in rest ==> n !in keys
    ensures rest[i] !in keys + rest[..i]
    ensures rest[..i + 1] == rest[..i] + [rest[i]]
  {
    assert rest[i] in rest;
  }

  /** The second loop: the aliases, which the picker does not list. */
  method AppendRest(names: OrderedMap<Name, Emoji>, remaining: OrderedMap<Name, Emoji>, ghost all: map<Name, Emoji>)
    requires names != remaining && names.Valid() && remaining.Valid()
    requires Split(all, names.entries, remaining.entries)
    modifies names
    ensures names.Valid() && names.entries == all && names.keys == old(names.keys) + remaining.keys
  {
    var rest := remaining.keys;
    ghost var keys, entries := names.keys, names.entries;
    assert forall n :: n in rest ==> n !in keys && n in remaining.entries && n in all && remaining.entries[n] == all[n];
    StartExtending(entries, all);
    for i := 0 to |rest|
      invariant names.Valid() && names.keys == keys + rest[..i]
      invariant Extended(entries, rest[..i], names.entries, all)
    {
      hide Extended;
      NextIsNew(keys, rest, i);
      assert rest[i] in rest;
      Extend(entries, rest[..i], names.entries, all, rest[i]);
      names.Set(rest[i], remaining.entries[rest[i]]);
    }
    assert rest[..|rest|] == rest;
    assert names.entries == all;
  }

  /** `more` has the entries and those of the added names, as `all` has them. */
  ghost predicate Extended(entries: map<Name, Emoji>, added: seq<Name>, more: map<Name, Emoji>, all: map<Name, Emoji>) {
    && (forall n :: n in more <==> n in entries || n in added)
    && (forall n :: n in more ==> n in all && more[n] == all[n])
  }

  lemma StartExtending(entries: map<Name, Emoji>, all: map<Name, Emoji>)
    requires forall n :: n in entries ==> n in all && entries[n] == all[n]
    ensures Extended(entries, [], entries, all)
  {
  }

  lemma Extend(entries: map<Name, Emoji>, added: seq<Name>, more: map<Name, Emoji>, all: map<Name, Emoji>, name: Name)
    requires Extended(entries, added, more, all) && name in all
    ensures Extended(entries, added + [name], more[name := all[name]], all)
  {
  }

  // ---- What the tables mean -------------------------------------------------------------------

  /** How many names the first entries have. */
  function Offset(data: seq<Entry>, i: nat): nat
    requires i <= |data|
  {
    if i == 0 then 0 else Offset(data, i - 1) + |data[i - 1].names|
  }

  lemma {:induction false} PairsOfAt(emoji: Emoji, names: seq<Name>)
    ensures |PairsOf(emoji, names)| == |names|
    ensures forall j :: 0 <= j < |names| ==> PairsOf(emoji, names)[j] == (names[j], emoji)
  {
    if names != [] {
      PairsOfAt(emoji, names[..|names| - 1]);
    }
  }

  /** The pairs are those of the entries, one entry after the other and each with its names in order. */
  lemma PairsAt(data: seq<Entry>, i: nat)
    requires i <= |data|
    ensures |Pairs(data[..i])| == Offset(data, i) && Pairs(data[..i]) <= Pairs(data)
    ensures i < |data| ==> forall j :: 0 <= j < |data[i].names| ==>
              Offset(data, i) + j < |Pairs(data)|
              && Pairs(data)[Offset(data, i) + j] == (data[i].names[j], data[i].emoji)
  {
    hide Pairs, PairsOf;
    PairsGrow(data, i);
    if i < |data| {
      PairsGrow(data, i + 1);
      NextEntry(data, i);
      PairsOfAt(data[i].emoji, data[i].names);
    }
  }

  lemma PairsGrow(data: seq<Entry>, i: nat)
    requires i <= |data|
    ensures |Pairs(data[..i])| == Offset(data, i) && Pairs(data[..i]) <= Pairs(data)
  {
    PairsLength(data, i);
    PairsPrefix(data, i);
  }

  lemma {:induction false} PairsLength(data: seq<Entry>, i: nat)
    requires i <= |data|
    ensures |Pairs(data[..i])| == Offset(data, i)
  {
    if i > 0 {
      PairsLength(data, i - 1);
      NextEntry(data, i - 1);
      PairsOfAt(data[i - 1].emoji, data[i - 1].names);
    }
  }

  lemma {:induction false} PairsPrefix(data: seq<Entry>, i: nat)
    requires i <= |data|
    ensures Pairs(data[..i]) <= Pairs(data)
    decreases |data| - i
  {
    if i == |data| {
      assert data[..i] == data;
    } else {
      PairsPrefix(data, i + 1);
      NextEntry(data, i);
    }
  }

  /** A name means what the last pair with that name says. */
  lemma {:induction false} MeansTheLast(pairs: seq<(Name, Emoji)>, i: nat)
    requires i < |pairs| && forall j :: i < j < |pairs| ==> pairs[j].0 != pairs[i].0
    ensures pairs[i].0 in LastMeaning(pairs) && LastMeaning(pairs)[pairs[i].0] == pairs[i].1
  {
    var init := pairs[..|pairs| - 1];
    if i < |init| {
      MeansTheLast(init, i);
    }
  }

  /**
    * The names in picker order are the library's, each once: the listed ones first, in the order of the
    * list, and then the others, in the order of the library.
    */
  lemma PickerOrderHas(pairs: seq<(Name, Emoji)>, order: seq<Name>)
    ensures Distinct(PickerOrder(pairs, order))
    ensures forall n :: n in PickerOrder(pairs, order) <==> exists i :: 0 <= i < |pairs| && pairs[i].0 == n
  {
    hide Filter, Firsts, LastMeaning;
    LastMeaningKeys(pairs);
    var known, listed := LastMeaning(pairs).Keys, set n | n in order;
    FirstsHave(Filter(In(known), order));
    FilterHas(In(known), order);
    FirstsHave(Names(pairs));
    FilterHas(NotIn(listed), Firsts(Names(pairs)));
    FilterDistinct(NotIn(listed), Firsts(Names(pairs)));
    DistinctAppend(Listed(order, known), Without(Firsts(Names(pairs)), listed));
  }

  lemma PickerOrderIsOrdered(pairs: seq<(Name, Emoji)>, order: seq<Name>, i: nat, j: nat)
    requires i < j < |PickerOrder(pairs, order)|
    ensures var a, b := PickerOrder(pairs, order)[i], PickerOrder(pairs, order)[j];
            && (b in order ==> a in order && Before(order, a, b))
            && (a !in order ==> Before(Names(pairs), a, b))
  {
    hide Filter, Firsts, LastMeaning, Before;
    LastMeaningKeys(pairs);
    var known, listed := LastMeaning(pairs).Keys, set n | n in order;
    var front, back := Listed(order, known), Without(Firsts(Names(pairs)), listed);
    FirstsHave(Filter(In(known), order));
    FilterHas(In(known), order);
    FirstsHave(Names(pairs));
    FilterHas(NotIn(listed), Firsts(Names(pairs)));
    FilterDistinct(NotIn(listed), Firsts(Names(pairs)));
    var a, b := (front + back)[i], (front + back)[j];
    if j < |front| {
      assert a in front && b in front;
      DistinctBefore(front, i, j);
      FirstsKeepOrder(Filter(In(known), order), a, b);
      FilterKeepsOrder(In(known), order, a, b);
    } else if i < |front| {
      assert a in front && b in back;
    } else {
      assert a in back && b in back;
      DistinctBefore(back, i - |front|, j - |front|);
      FilterKeepsOrder(NotIn(listed), Firsts(Names(pairs)), a, b);
      FirstsKeepOrder(Names(pairs), a, b);
    }
  }
}
