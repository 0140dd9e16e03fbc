/** The sort the leaderboard relies on: a stable sort by order count, most
    requested first, as `Array.prototype.sort` with the comparator
    `b.orderCount - a.orderCount` behaves (stability is guaranteed by
    ECMAScript since ES2019). It is given here as an insertion sort, together
    with a reference definition of "a stable sort of s" and the proof that
    exactly one list meets that definition. */
module StableSort {
  import opened Dishes

  /** The dishes of `s` whose order count is `c`, in their order in `s`. */
  function WithCount(s: seq<Dish>, c: int): seq<Dish>
  {
    if s == [] then []
    else (if s[0].orderCount == c then [s[0]] else []) + WithCount(s[1..], c)
  }

  /** `WithCount(s, c)` holds exactly the dishes of `s` with count `c`. */
  lemma {:induction false} WithCountMember(s: seq<Dish>, c: int, x: Dish)
    ensures x in WithCount(s, c) <==> x in s && x.orderCount == c
  {
    if s != [] {
      assert s == [s[0]] + s[1..];
      WithCountMember(s[1..], c, x);
    }
  }

  /** `t` is a stable sort of `s`: ordered by count, and within each count the
      dishes of `s` in their order in `s`. */
  ghost predicate IsStableSortOf(t: seq<Dish>, s: seq<Dish>)
  {
    Sorted(t) && forall c :: WithCount(t, c) == WithCount(s, c)
  }

  /** A dish that ranks at or above the head of a sorted list can lead it. */
  lemma ConsSorted(y: Dish, s: seq<Dish>)
    requires Sorted(s) && (s == [] || s[0].orderCount <= y.orderCount)
    ensures Sorted([y] + s)
  {
    var t := [y] + s;
    forall i, j | 0 <= i < j < |t|
      ensures t[i].orderCount >= t[j].orderCount
    {
      if i == 0 {
        assert t[j] == s[j - 1];
      } else {
        assert t[i] == s[i - 1] && t[j] == s[j - 1];
      }
    }
  }

  /** A dish that ranks at or below the last of a sorted list can follow it. */
  lemma SnocSorted(s: seq<Dish>, y: Dish)
    requires Sorted(s) && (s == [] || y.orderCount <= s[|s| - 1].orderCount)
    ensures Sorted(s + [y])
  {
    var t := s + [y];
    forall i, j | 0 <= i < j < |t|
      ensures t[i].orderCount >= t[j].orderCount
    {
      if j == |s| {
        assert t[i] == s[i];
      } else {
        assert t[i] == s[i] && t[j] == s[j];
      }
    }
  }

  /** Puts `x` into the sorted list `t` in front of the first dish that it
      does not rank below. */
  function Insert(x: Dish, t: seq<Dish>): (r: seq<Dish>)
    requires Sorted(t)
    ensures Sorted(r)
    ensures multiset(r) == multiset(t) + multiset{x}
    ensures r[0] == x || (t != [] && r[0] == t[0])
  {
    if t == [] || x.orderCount >= t[0].orderCount then
      ConsSorted(x, t);
      [x] + t
    else
      assert t == [t[0]] + t[1..];
      var rest := Insert(x, t[1..]);
      ConsSorted(t[0], rest);
      [t[0]] + rest
  }

  /** Stable insertion sort, most requested first. */
  function Sort(s: seq<Dish>): (r: seq<Dish>)
    ensures Sorted(r)
    ensures multiset(r) == multiset(s)
  {
    if s == [] then []
    else
      assert s == [s[0]] + s[1..];
      Insert(s[0], Sort(s[1..]))
  }

  lemma {:induction false} WithCountAppend(a: seq<Dish>, b: seq<Dish>, c: int)
    ensures WithCount(a + b, c) == WithCount(a, c) + WithCount(b, c)
  {
    if a == [] {
      assert a + b == b;
    } else {
      assert a + b == [a[0]] + (a[1..] + b);
      assert a == [a[0]] + a[1..];
      WithCountCons(a[0], a[1..] + b, c);
      WithCountCons(a[0], a[1..], c);
      WithCountAppend(a[1..], b, c);
    }
  }

  lemma WithCountCons(x: Dish, t: seq<Dish>, c: int)
    ensures WithCount([x] + t, c) == (if x.orderCount == c then [x] else []) + WithCount(t, c)
  {
    assert ([x] + t)[1..] == t;
  }

  lemma {:induction false} WithCountNone(a: seq<Dish>, c: int)
    requires forall d :: d in a ==> d.orderCount != c
    ensures WithCount(a, c) == []
  {
    if a != [] {
      WithCountNone(a[1..], c);
    }
  }

  lemma SortedHeadIsGreatest(s: seq<Dish>, x: Dish)
    requires Sorted(s) && x in s
    ensures x.orderCount <= s[0].orderCount
  {
  }

  /** Inserting `x` puts it first among the dishes of its own count and moves
      no other dish past one of equal count. */
  lemma {:induction false} InsertKeepsTies(x: Dish, t: seq<Dish>, c: int)
    requires Sorted(t)
    ensures WithCount(Insert(x, t), c) == (if x.orderCount == c then [x] else []) + WithCount(t, c)
  {
    if t == [] || x.orderCount >= t[0].orderCount {
      WithCountCons(x, t, c);
    } else {
      var rest := Insert(x, t[1..]);
      InsertKeepsTies(x, t[1..], c);
      WithCountCons(t[0], rest, c);
      assert t == [t[0]] + t[1..];
      WithCountCons(t[0], t[1..], c);
    }
  }

  /** The insertion sort is a stable sort. */
  lemma {:induction false} SortIsStable(s: seq<Dish>)
    ensures IsStableSortOf(Sort(s), s)
  {
    if s != [] {
      SortIsStable(s[1..]);
      forall c
        ensures WithCount(Sort(s), c) == WithCount(s, c)
      {
        InsertKeepsTies(s[0], Sort(s[1..]), c);
      }
    }
  }

  /** Two sorted lists with the same dishes of every count, in the same order,
      are the same list: the stable sort is determined by its input. */
  lemma {:induction false} StableSortIsUnique(t: seq<Dish>, u: seq<Dish>)
    requires Sorted(t) && Sorted(u)
    requires forall c :: WithCount(t, c) == WithCount(u, c)
    ensures t == u
    decreases |t|
  {
    if t == [] {
      if u != [] {
        assert false;
      }
    } else {
      var c0 := t[0].orderCount;
      WithCountMember(t, c0, t[0]);
      WithCountMember(u, c0, t[0]);
      var c1 := u[0].orderCount;
      WithCountMember(u, c1, u[0]);
      WithCountMember(t, c1, u[0]);
      SortedHeadIsGreatest(u, t[0]);
      SortedHeadIsGreatest(t, u[0]);
      assert WithCount(t, c0)[0] == t[0];
      assert WithCount(u, c0)[0] == u[0];
      assert t == [t[0]] + t[1..];
      assert u == [u[0]] + u[1..];
      WithCountCons(t[0], t[1..], c0);
      WithCountCons(u[0], u[1..], c0);
      forall c
        ensures WithCount(t[1..], c) == WithCount(u[1..], c)
      {
        var p := if c0 == c then [t[0]] else [];
        WithCountCons(t[0], t[1..], c);
        WithCountCons(u[0], u[1..], c);
        assert WithCount(t[1..], c) == WithCount(t, c)[|p|..];
        assert WithCount(u[1..], c) == WithCount(u, c)[|p|..];
      }
      StableSortIsUnique(t[1..], u[1..]);
    }
  }

  /** `Sort` is the stable sort: any stable sort of `s` is `Sort(s)`. */
  lemma SortIsTheStableSort(s: seq<Dish>, t: seq<Dish>)
    requires IsStableSortOf(t, s)
    ensures t == Sort(s)
  {
    SortIsStable(s);
    StableSortIsUnique(t, Sort(s));
  }

  /** Sorting a list that is already sorted changes nothing. */
  lemma SortedIsFixed(s: seq<Dish>)
    requires Sorted(s)
    ensures Sort(s) == s
  {
    SortIsTheStableSort(s, s);
  }

  /** A dish ranking at or below every dish of `a` and placed after them stays last. */
  lemma SortKeepsLowestLast(a: seq<Dish>, x: Dish)
    requires forall d :: d in a ==> x.orderCount <= d.orderCount
    ensures Sort(a + [x]) == Sort(a) + [x]
  {
    var sorted := Sort(a);
    var t := sorted + [x];
    if sorted != [] {
      assert sorted[|sorted| - 1] in multiset(a);
    }
    SnocSorted(sorted, x);
    SortIsStable(a);
    forall c
      ensures WithCount(t, c) == WithCount(a + [x], c)
    {
      WithCountAppend(Sort(a), [x], c);
      WithCountAppend(a, [x], c);
    }
    SortIsTheStableSort(a + [x], t);
  }

  lemma LiftedTies(a: seq<Dish>, x: Dish, b: seq<Dish>, rest: seq<Dish>, c: int)
    requires forall d :: d in a ==> d.orderCount < x.orderCount
    requires WithCount(rest, c) == WithCount(a + b, c)
    ensures WithCount([x] + rest, c) == WithCount(a + [x] + b, c)
  {
    var px := if x.orderCount == c then [x] else [];
    WithCountCons(x, rest, c);
    WithCountCons(x, [], c);
    assert WithCount([x], c) == px by { assert [x] + [] == [x]; }
    WithCountAppend(a, b, c);
    WithCountAppend(a, [x], c);
    WithCountAppend(a + [x], b, c);
    if c == x.orderCount {
      WithCountNone(a, c);
    }
  }

  /** A dish ranking strictly above all others goes first, wherever it stood,
      and the others keep the order they would have had without it. */
  lemma SortLiftsGreatest(a: seq<Dish>, x: Dish, b: seq<Dish>)
    requires forall d :: d in a + b ==> d.orderCount < x.orderCount
    ensures Sort(a + [x] + b) == [x] + Sort(a + b)
  {
    var rest := Sort(a + b);
    if rest != [] {
      assert rest[0] in multiset(a + b);
    }
    ConsSorted(x, rest);
    SortIsStable(a + b);
    forall c
      ensures WithCount([x] + rest, c) == WithCount(a + [x] + b, c)
    {
      LiftedTies(a, x, b, rest, c);
    }
    SortIsTheStableSort(a + [x] + b, [x] + rest);
  }
}
