/** Filtering and cutting sequences. */
module Lists {
  import opened Prelude

  function Take<T>(s: seq<T>, n: nat): seq<T> { s[..Min(n, |s|)] }

  /** The entries that `keep` accepts, in order. */
  function Filter<T>(keep: T -> bool, s: seq<T>): seq<T> {
    if s == [] then []
    else Filter(keep, s[..|s| - 1]) + if keep(s[|s| - 1]) then [s[|s| - 1]] else []
  }

  /** The entries outside `drop`, in order. */
  function Without<T(==)>(s: seq<T>, drop: set<T>): seq<T> { Filter(NotIn(drop), s) }

  function In<T(==)>(keep: set<T>): T -> bool { x => x in keep }

  function NotIn<T(==)>(drop: set<T>): T -> bool { x => x !in drop }

  /** Every entry once, where it occurs first. */
  function Firsts<T(==)>(s: seq<T>): seq<T> {
    if s == [] then []
    else
      var firsts, last := Firsts(s[..|s| - 1]), s[|s| - 1];
      if last in firsts then firsts else firsts + [last]
  }

  lemma FilterNext<T>(keep: T -> bool, s: seq<T>, x: T)
    ensures Filter(keep, s + [x]) == Filter(keep, s) + if keep(x) then [x] else []
  {
    assert (s + [x])[..|s|] == s;
  }

  lemma {:induction false} FilterAppend<T>(keep: T -> bool, a: seq<T>, b: seq<T>)
    ensures Filter(keep, a + b) == Filter(keep, a) + Filter(keep, b)
    decreases |b|
  {
    if b == [] {
      assert a + b == a;
    } else {
      var init, last := b[..|b| - 1], b[|b| - 1];
      FilterAppend(keep, a, init);
      FilterNext(keep, a + init, last);
      assert a + b == (a + init) + [last];
    }
  }

  lemma {:induction false} FilterHas<T>(keep: T -> bool, s: seq<T>)
    ensures forall x :: x in Filter(keep, s) <==> x in s && keep(x)
  {
    if s != [] {
      FilterHas(keep, s[..|s| - 1]);
      assert s == s[..|s| - 1] + [s[|s| - 1]];
    }
  }

  lemma DistinctNext<T>(s: seq<T>, x: T)
    requires Distinct(s) && x !in s
    ensures Distinct(s + [x])
  {
  }

  lemma DistinctAppend<T>(a: seq<T>, b: seq<T>)
    requires Distinct(a) && Distinct(b) && forall x :: x in a ==> x !in b
    ensures Distinct(a + b)
  {
    forall i, j | 0 <= i < j < |a + b| ensures (a + b)[i] != (a + b)[j] {
      if i < |a| && |a| <= j {
        assert (a + b)[i] in a && (a + b)[j] in b;
      }
    }
  }

  lemma {:induction false} FilterDistinct<T>(keep: T -> bool, s: seq<T>)
    requires Distinct(s)
    ensures Distinct(Filter(keep, s))
  {
    if s != [] {
      var init := s[..|s| - 1];
      FilterDistinct(keep, init);
      FilterHas(keep, init);
      if keep(s[|s| - 1]) {
        DistinctNext(Filter(keep, init), s[|s| - 1]);
      }
    }
  }

  /** Two filters that agree on the entries give the same. */
  lemma {:induction false} FilterSame<T>(p: T -> bool, q: T -> bool, s: seq<T>)
    requires forall x :: x in s ==> p(x) == q(x)
    ensures Filter(p, s) == Filter(q, s)
  {
    if s != [] {
      FilterSame(p, q, s[..|s| - 1]);
    }
  }

  lemma {:induction false} FirstsHave<T>(s: seq<T>)
    ensures forall x :: x in Firsts(s) <==> x in s
    ensures Distinct(Firsts(s))
  {
    if s != [] {
      FirstsHave(s[..|s| - 1]);
      assert s == s[..|s| - 1] + [s[|s| - 1]];
    }
  }

  lemma FirstsNext<T>(s: seq<T>, x: T)
    ensures Firsts(s + [x]) == if x in s then Firsts(s) else Firsts(s) + [x]
  {
    assert (s + [x])[..|s|] == s;
    FirstsHave(s);
  }

  /** From distinct entries a set takes away no more than it has. */
  lemma {:induction false} WithoutKeepsMost<T>(s: seq<T>, drop: set<T>)
    requires Distinct(s)
    ensures |Without(s, drop)| >= |s| - |drop|
  {
    if s != [] {
      var init, last := s[..|s| - 1], s[|s| - 1];
      if last in drop {
        WithoutKeepsMost(init, drop - {last});
        FilterSame(NotIn(drop), NotIn(drop - {last}), init);
      } else {
        WithoutKeepsMost(init, drop);
      }
    }
  }

  lemma {:induction false} SetOfIsSmall<T>(s: seq<T>)
    ensures |set x | x in s| <= |s|
  {
    if s == [] {
      assert (set x | x in s) == {};
    } else {
      var init, last := s[..|s| - 1], s[|s| - 1];
      SetOfIsSmall(init);
      assert (set x | x in s) == (set x | x in init) + {last};
    }
  }

  lemma {:induction false} WithoutTwice<T>(s: seq<T>, a: set<T>, b: set<T>)
    ensures Without(Without(s, a), b) == Without(s, a + b)
  {
    if s != [] {
      var init, last := s[..|s| - 1], s[|s| - 1];
      WithoutTwice(init, a, b);
      if last in a {
        assert Without(s, a) == Without(init, a) + [] == Without(init, a);
        assert Without(s, a + b) == Without(init, a + b) + [] == Without(init, a + b);
        assert Without(Without(s, a), b) == Without(Without(init, a), b);
      } else {
        assert Without(s, a) == Without(init, a) + [last];
        FilterNext(NotIn(b), Without(init, a), last);
        assert Without(s, a + b) == Without(init, a + b) + if last in b then [] else [last];
      }
    }
  }

  lemma {:induction false} WithoutNone<T>(s: seq<T>)
    ensures Without(s, {}) == s
  {
    if s != [] {
      WithoutNone(s[..|s| - 1]);
    }
  }

  /** Cutting late enough before dropping entries does not change the first `n` that remain. */
  lemma TakeWithoutTake<T>(s: seq<T>, drop: seq<T>, n: nat)
    requires Distinct(s)
    ensures var dropped := set x | x in drop;
            Take(Without(Take(s, n + |drop|), dropped), n) == Take(Without(s, dropped), n)
  {
    var dropped := set x | x in drop;
    var front := Take(s, n + |drop|);
    if |s| > n + |drop| {
      FilterAppend(NotIn(dropped), front, s[n + |drop|..]);
      assert s == front + s[n + |drop|..];
      WithoutKeepsMost(front, dropped);
      SetOfIsSmall(drop);
    } else {
      assert front == s;
    }
  }

  // ---- Order ----------------------------------------------------------------------------------

  /** `a` occurs before the first occurrence of `b`, if there is one. */
  ghost predicate Before<T>(s: seq<T>, a: T, b: T) { exists p :: 0 <= p < |s| && s[p] == a && b !in s[..p + 1] }

  lemma BeforeNext<T>(s: seq<T>, a: T, b: T, x: T)
    requires Before(s, a, b)
    ensures Before(s + [x], a, b)
  {
    var p :| 0 <= p < |s| && s[p] == a && b !in s[..p + 1];
    assert (s + [x])[p] == a && (s + [x])[..p + 1] == s[..p + 1];
  }

  lemma BeforeLast<T>(s: seq<T>, a: T, b: T)
    requires a in s && b !in s
    ensures Before(s + [b], a, b)
  {
    var p :| 0 <= p < |s| && s[p] == a;
    assert (s + [b])[p] == a && (s + [b])[..p + 1] == s[..p + 1];
  }

  /** Distinct entries come in order. */
  lemma DistinctBefore<T>(s: seq<T>, i: nat, j: nat)
    requires Distinct(s) && i < j < |s|
    ensures Before(s, s[i], s[j])
  {
    assert s[i] == s[i] && s[j] !in s[..i + 1];
  }

  /** Filtering keeps the order of what it keeps. */
  lemma {:induction false} FilterKeepsOrder<T>(keep: T -> bool, s: seq<T>, a: T, b: T)
    requires Before(Filter(keep, s), a, b) && keep(b)
    ensures Before(s, a, b)
  {
    var f := Filter(keep, s);
    var p :| 0 <= p < |f| && f[p] == a && b !in f[..p + 1];
    var init, last := s[..|s| - 1], s[|s| - 1];
    assert s == init + [last];
    var g := Filter(keep, init);
    if p < |g| {
      assert g[p] == a && g[..p + 1] == f[..p + 1];
      FilterKeepsOrder(keep, init, a, b);
      BeforeNext(init, a, b, last);
    } else {
      assert f == g + [last] && f[..p + 1] == f;
      FilterHas(keep, s);
      assert s[|init|] == a && s[..|init| + 1] == s;
    }
  }

  lemma {:induction false} FirstsKeepOrder<T>(s: seq<T>, a: T, b: T)
    requires Before(Firsts(s), a, b)
    ensures Before(s, a, b)
  {
    var f := Firsts(s);
    var p :| 0 <= p < |f| && f[p] == a && b !in f[..p + 1];
    var init, last := s[..|s| - 1], s[|s| - 1];
    assert s == init + [last];
    var g := Firsts(init);
    if p < |g| {
      assert g[p] == a && g[..p + 1] == f[..p + 1];
      FirstsKeepOrder(init, a, b);
      BeforeNext(init, a, b, last);
    } else {
      assert f == g + [last] && f[..p + 1] == f;
      FirstsHave(s);
      assert s[|init|] == a && s[..|init| + 1] == s;
    }
  }
}
