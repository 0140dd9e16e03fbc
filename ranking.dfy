/** The leaderboard update: replace the edited dish or append the new one,
    stable-sort by order count (most requested first), then renumber every
    dish to its position plus one. Each step builds a new list; the previous
    list is never changed. */
module Ranking {
  import opened Dishes
  import opened StableSort

  /** Gives every dish the id `position + 1`. */
  function Renumber(s: seq<Dish>): (r: seq<Dish>)
    ensures Numbered(r)
    ensures Entries(r) == Entries(s)
    ensures Sorted(s) ==> Sorted(r)
  {
    seq(|s|, i requires 0 <= i < |s| => s[i].(id := i + 1))
  }

  /** Puts `dish` in place of every dish whose id equals its id. */
  function ReplaceById(s: seq<Dish>, dish: Dish): (r: seq<Dish>)
    ensures Numbered(s) && 1 <= dish.id <= |s| ==> r == s[dish.id - 1 := dish]
    ensures Numbered(s) && !(1 <= dish.id <= |s|) ==> r == s
  {
    seq(|s|, i requires 0 <= i < |s| => if s[i].id == dish.id then dish else s[i])
  }

  /** The list handed to the sort: in edit mode the list with `dish` in place
      of the dish with its id; in add mode the list with `dish` appended under
      the provisional id `|dishes| + 1`. */
  function Staged(dishes: seq<Dish>, dish: Dish, isEdit: bool): seq<Dish>
  {
    if isEdit then ReplaceById(dishes, dish)
    else dishes + [dish.(id := |dishes| + 1)]
  }

  /** The update applied on every submission of the dish form. */
  function Upsert(dishes: seq<Dish>, dish: Dish, isEdit: bool): (r: seq<Dish>)
    ensures Sorted(r) && Numbered(r)
    ensures |r| == if isEdit then |dishes| else |dishes| + 1
  {
    var sorted := Sort(Staged(dishes, dish, isEdit));
    assert |sorted| == |multiset(sorted)|;
    Renumber(sorted)
  }

  lemma EntriesAppend(a: seq<Dish>, b: seq<Dish>)
    ensures Entries(a + b) == Entries(a) + Entries(b)
  {
  }

  /** Rearranging dishes rearranges their contents the same way. */
  lemma {:induction false} EntriesOfPermutation(a: seq<Dish>, b: seq<Dish>)
    requires multiset(a) == multiset(b)
    ensures multiset(Entries(a)) == multiset(Entries(b))
    decreases |a|
  {
    if a == [] {
      assert |b| == |multiset(b)|;
    } else {
      var x := a[0];
      assert x in multiset(b);
      var k :| 0 <= k < |b| && b[k] == x;
      var b' := b[..k] + b[k + 1..];
      assert b == b[..k] + [x] + b[k + 1..];
      assert a == [x] + a[1..];
      assert multiset(b) == multiset(b[..k]) + multiset{x} + multiset(b[k + 1..]);
      assert multiset(b') == multiset(b[..k]) + multiset(b[k + 1..]);
      assert multiset(a) == multiset{x} + multiset(a[1..]);
      assert multiset(a[1..]) == multiset(a) - multiset{x};
      assert multiset(b') == multiset(b) - multiset{x};
      EntriesOfPermutation(a[1..], b');
      EntriesAppend(b[..k], [x]);
      EntriesAppend(b[..k] + [x], b[k + 1..]);
      EntriesAppend(b[..k], b[k + 1..]);
      EntriesAppend([x], a[1..]);
    }
  }

  /** Lists with the same contents have the same contents at every count. */
  lemma {:induction false} SameEntriesSameTies(a: seq<Dish>, b: seq<Dish>, c: int)
    requires Entries(a) == Entries(b)
    ensures Entries(WithCount(a, c)) == Entries(WithCount(b, c))
    decreases |a|
  {
    assert |a| == |Entries(a)| == |b|;
    if a != [] {
      assert a[0].Content() == Entries(a)[0] == b[0].Content();
      assert Entries(a[1..]) == Entries(a)[1..] == Entries(b)[1..] == Entries(b[1..]);
      SameEntriesSameTies(a[1..], b[1..], c);
      var pa := if a[0].orderCount == c then [a[0]] else [];
      var pb := if b[0].orderCount == c then [b[0]] else [];
      assert Entries(pa) == Entries(pb);
      EntriesAppend(pa, WithCount(a[1..], c));
      EntriesAppend(pb, WithCount(b[1..], c));
    }
  }

  /** Edit mode finds the dish to replace by its id: on a numbered list that is
      exactly one dish when the id is a rank, and none otherwise. */
  lemma EditStagesOneReplacement(dishes: seq<Dish>, dish: Dish)
    requires Numbered(dishes)
    ensures 1 <= dish.id <= |dishes| ==> Staged(dishes, dish, true) == dishes[dish.id - 1 := dish]
    ensures !(1 <= dish.id <= |dishes|) ==> Staged(dishes, dish, true) == dishes
  {
  }

  /** Adding changes the contents by exactly the new dish. */
  lemma UpsertAddContents(dishes: seq<Dish>, dish: Dish)
    ensures multiset(Entries(Upsert(dishes, dish, false)))
         == multiset(Entries(dishes)) + multiset{dish.Content()}
  {
    var staged := Staged(dishes, dish, false);
    EntriesOfPermutation(Sort(staged), staged);
    EntriesAppend(dishes, [dish.(id := |dishes| + 1)]);
  }

  /** Editing swaps the contents of the dish with the submitted id for the
      submitted name and count, and changes nothing else. */
  lemma UpsertEditContents(dishes: seq<Dish>, dish: Dish)
    requires Numbered(dishes) && 1 <= dish.id <= |dishes|
    ensures multiset(Entries(Upsert(dishes, dish, true)))
         == multiset(Entries(dishes)) - multiset{dishes[dish.id - 1].Content()} + multiset{dish.Content()}
  {
    var k := dish.id - 1;
    var staged := dishes[k := dish];
    EditStagesOneReplacement(dishes, dish);
    var sorted := Sort(staged);
    assert Entries(Upsert(dishes, dish, true)) == Entries(sorted);
    EntriesOfPermutation(sorted, staged);
    assert Entries(staged) == Entries(dishes)[k := dish.Content()];
    assert Entries(dishes)[k] == dishes[k].Content();
  }

  /** Dishes of equal count keep their previous relative order, and an added
      dish goes after every existing dish of its count. */
  lemma UpsertAddKeepsTies(dishes: seq<Dish>, dish: Dish, c: int)
    ensures Entries(WithCount(Upsert(dishes, dish, false), c))
         == Entries(WithCount(dishes, c)) + (if dish.orderCount == c then [dish.Content()] else [])
  {
    var x := dish.(id := |dishes| + 1);
    var staged := Staged(dishes, dish, false);
    SortIsStable(staged);
    SameEntriesSameTies(Upsert(dishes, dish, false), Sort(staged), c);
    WithCountAppend(dishes, [x], c);
    WithCountCons(x, [], c);
    assert [x] + [] == [x];
    EntriesAppend(WithCount(dishes, c), WithCount([x], c));
  }

  /** In edit mode, dishes of equal count keep their relative order, the
      edited dish standing where it stood before. */
  lemma UpsertEditKeepsTies(dishes: seq<Dish>, dish: Dish, c: int)
    requires Numbered(dishes) && 1 <= dish.id <= |dishes|
    ensures Entries(WithCount(Upsert(dishes, dish, true), c))
         == Entries(WithCount(dishes[dish.id - 1 := dish], c))
  {
    var staged := Staged(dishes, dish, true);
    SortIsStable(staged);
    SameEntriesSameTies(Upsert(dishes, dish, true), Sort(staged), c);
  }

  /** Name and count constraints survive every update. */
  lemma UpsertKeepsWellFormed(dishes: seq<Dish>, dish: Dish, isEdit: bool)
    requires WellFormed(dishes) && |dish.name| > 0 && dish.orderCount >= 1
    ensures WellFormed(Upsert(dishes, dish, isEdit))
  {
    var staged := Staged(dishes, dish, isEdit);
    var sorted := Sort(staged);
    var r := Upsert(dishes, dish, isEdit);
    forall i | 0 <= i < |r|
      ensures |r[i].name| > 0 && r[i].orderCount >= 1
    {
      assert Entries(r)[i] == Entries(sorted)[i];
      assert sorted[i] in multiset(staged);
    }
  }

  /** Renumbering a numbered list changes nothing. */
  lemma RenumberNumbered(s: seq<Dish>)
    requires Numbered(s)
    ensures Renumber(s) == s
  {
    var r := Renumber(s);
    forall j | 0 <= j < |s|
      ensures r[j] == s[j]
    {
      assert r[j] == s[j].(id := j + 1);
    }
  }

  /** An edit that stages the list unchanged leaves a ranked list as it was. */
  lemma EditStagingNothingIsIdentity(dishes: seq<Dish>, dish: Dish)
    requires Sorted(dishes) && Numbered(dishes)
    requires Staged(dishes, dish, true) == dishes
    ensures Upsert(dishes, dish, true) == dishes
  {
    SortedIsFixed(dishes);
    assert Upsert(dishes, dish, true) == Renumber(dishes);
    RenumberNumbered(dishes);
  }

  /** Resubmitting a dish unchanged in edit mode leaves the leaderboard as it was. */
  lemma ResubmitIsIdentity(dishes: seq<Dish>, i: int)
    requires Sorted(dishes) && Numbered(dishes) && 0 <= i < |dishes|
    ensures Upsert(dishes, dishes[i], true) == dishes
  {
    EditStagesOneReplacement(dishes, dishes[i]);
    assert dishes[i := dishes[i]] == dishes;
    EditStagingNothingIsIdentity(dishes, dishes[i]);
  }

  /** An edit whose id names no rank changes nothing. */
  lemma EditOfUnknownIdIsIdentity(dishes: seq<Dish>, dish: Dish)
    requires Sorted(dishes) && Numbered(dishes) && !(1 <= dish.id <= |dishes|)
    ensures Upsert(dishes, dish, true) == dishes
  {
    EditStagesOneReplacement(dishes, dish);
    EditStagingNothingIsIdentity(dishes, dish);
  }

  /** A dish added with a count no higher than any other takes the last rank. */
  lemma AddLowestTakesLastRank(dishes: seq<Dish>, dish: Dish)
    requires forall d :: d in dishes ==> dish.orderCount <= d.orderCount
    ensures Upsert(dishes, dish, false)[|dishes|] == Dish(|dishes| + 1, dish.name, dish.orderCount)
  {
    SortKeepsLowestLast(dishes, dish.(id := |dishes| + 1));
  }

  /** A dish added with a count above all others takes rank 1, and every other
      dish moves down one rank. */
  lemma AddHighestTakesFirstRank(dishes: seq<Dish>, dish: Dish)
    requires Sorted(dishes) && Numbered(dishes)
    requires forall d :: d in dishes ==> d.orderCount < dish.orderCount
    ensures Upsert(dishes, dish, false)[0] == Dish(1, dish.name, dish.orderCount)
    ensures forall i :: 0 <= i < |dishes| ==>
      Upsert(dishes, dish, false)[i + 1] == dishes[i].(id := dishes[i].id + 1)
  {
    var x := dish.(id := |dishes| + 1);
    assert dishes + [x] + [] == dishes + [x];
    assert dishes + [] == dishes;
    SortLiftsGreatest(dishes, x, []);
    SortedIsFixed(dishes);
  }

  /** Dropping one dish from a sorted list leaves it sorted. */
  lemma SortedWithout(s: seq<Dish>, k: int)
    requires Sorted(s) && 0 <= k < |s|
    ensures Sorted(s[..k] + s[k + 1..])
  {
    var t := s[..k] + s[k + 1..];
    forall i, j | 0 <= i < j < |t|
      ensures t[i].orderCount >= t[j].orderCount
    {
      assert t[i] == s[if i < k then i else i + 1];
      assert t[j] == s[if j < k then j else j + 1];
    }
  }

  lemma OthersRankBelow(dishes: seq<Dish>, dish: Dish)
    requires 1 <= dish.id <= |dishes|
    requires forall i :: 0 <= i < |dishes| && i != dish.id - 1 ==> dishes[i].orderCount < dish.orderCount
    ensures forall d :: d in dishes[..dish.id - 1] + dishes[dish.id..] ==> d.orderCount < dish.orderCount
  {
    var k := dish.id - 1;
    var a, b := dishes[..k], dishes[k + 1..];
    forall d: Dish | d in a + b
      ensures d.orderCount < dish.orderCount
    {
      var j :| 0 <= j < |a + b| && (a + b)[j] == d;
      assert d == dishes[if j < k then j else j + 1];
    }
  }

  /** Sorting a list whose edited dish outranks all others moves that dish to
      the front and leaves the others in place. */
  lemma EditToHighestSorts(dishes: seq<Dish>, dish: Dish)
    requires Sorted(dishes) && Numbered(dishes) && 1 <= dish.id <= |dishes|
    requires forall i :: 0 <= i < |dishes| && i != dish.id - 1 ==> dishes[i].orderCount < dish.orderCount
    ensures Sort(Staged(dishes, dish, true)) == [dish] + (dishes[..dish.id - 1] + dishes[dish.id..])
  {
    var k := dish.id - 1;
    var a, b := dishes[..k], dishes[k + 1..];
    EditStagesOneReplacement(dishes, dish);
    assert dishes[k := dish] == a + [dish] + b;
    OthersRankBelow(dishes, dish);
    SortLiftsGreatest(a, dish, b);
    SortedWithout(dishes, k);
    SortedIsFixed(a + b);
  }

  /** Renumbering a list led by `dish` and followed by `dishes` without its
      `k`-th dish: the dishes before position `k` move down one rank. */
  lemma RenumberedAfterLift(dishes: seq<Dish>, dish: Dish, k: int, r: seq<Dish>)
    requires Numbered(dishes) && 0 <= k < |dishes|
    requires r == Renumber([dish] + (dishes[..k] + dishes[k + 1..]))
    ensures |r| == |dishes| && r[0] == Dish(1, dish.name, dish.orderCount)
    ensures forall i :: 1 <= i <= k ==> r[i] == dishes[i - 1].(id := dishes[i - 1].id + 1)
    ensures forall i :: k < i < |dishes| ==> r[i] == dishes[i]
  {
    var t := [dish] + (dishes[..k] + dishes[k + 1..]);
    forall i | 1 <= i <= k
      ensures r[i] == dishes[i - 1].(id := dishes[i - 1].id + 1)
    {
      assert t[i] == dishes[i - 1];
    }
    forall i | k < i < |dishes|
      ensures r[i] == dishes[i]
    {
      assert t[i] == dishes[i];
    }
  }

  /** A dish edited to a count above all others takes rank 1; the dishes it
      passed move down one rank and the ones below it keep theirs. */
  lemma EditToHighestTakesFirstRank(dishes: seq<Dish>, dish: Dish)
    requires Sorted(dishes) && Numbered(dishes) && 1 <= dish.id <= |dishes|
    requires forall i :: 0 <= i < |dishes| && i != dish.id - 1 ==> dishes[i].orderCount < dish.orderCount
    ensures Upsert(dishes, dish, true)[0] == Dish(1, dish.name, dish.orderCount)
    ensures forall i :: 1 <= i < dish.id ==>
      Upsert(dishes, dish, true)[i] == dishes[i - 1].(id := dishes[i - 1].id + 1)
    ensures forall i :: dish.id <= i < |dishes| ==> Upsert(dishes, dish, true)[i] == dishes[i]
  {
    EditToHighestSorts(dishes, dish);
    RenumberedAfterLift(dishes, dish, dish.id - 1, Upsert(dishes, dish, true));
  }

  /** Adding "Truffle Pasta" with 400 orders to the seed list puts it at rank 1
      and "Spaghetti Carbonara" at rank 2. */
  lemma SeedAddAtTop()
    ensures Upsert(Seed(), Dish(0, "Truffle Pasta", 400), false)[0] == Dish(1, "Truffle Pasta", 400)
    ensures Upsert(Seed(), Dish(0, "Truffle Pasta", 400), false)[1] == Dish(2, "Spaghetti Carbonara", 342)
  {
    SeedIsRanked();
    AddHighestTakesFirstRank(Seed(), Dish(0, "Truffle Pasta", 400));
  }

  /** Editing "Fish and Chips" (rank 10) to 500 orders moves it to rank 1 and
      every other seed dish down one rank. */
  lemma SeedEditToTop()
    ensures Upsert(Seed(), Dish(10, "Fish and Chips", 500), true)[0] == Dish(1, "Fish and Chips", 500)
    ensures forall i :: 1 <= i < 10 ==>
      Upsert(Seed(), Dish(10, "Fish and Chips", 500), true)[i] == Seed()[i - 1].(id := i + 1)
  {
    SeedIsRanked();
    EditToHighestTakesFirstRank(Seed(), Dish(10, "Fish and Chips", 500));
  }

  /** A dish added to the seed list with a single order takes the last rank, 11. */
  lemma SeedAddAtBottom()
    ensures Upsert(Seed(), Dish(0, "Lemon Tart", 1), false)[10] == Dish(11, "Lemon Tart", 1)
  {
    SeedIsRanked();
    AddLowestTakesLastRank(Seed(), Dish(0, "Lemon Tart", 1));
  }
}
