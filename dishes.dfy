/** The leaderboard's one entity, the predicates that describe a well-kept
    leaderboard, and the list the page starts with. */
module Dishes {

  /** One leaderboard row. `id` is not an identity: it is the 1-based rank,
      reassigned every time the list is re-sorted. */
  datatype Dish = Dish(id: int, name: string, orderCount: int)
  {
    /** What the row carries apart from its rank. */
    function Content(): Entry { Entry(name, orderCount) }
  }

  /** The (name, orderCount) pair of a dish: what an update must preserve. */
  datatype Entry = Entry(name: string, orderCount: int)

  /** The contents of a list of dishes, rank numbers dropped. */
  function Entries(s: seq<Dish>): seq<Entry>
  {
    seq(|s|, i requires 0 <= i < |s| => s[i].Content())
  }

  /** Ordered by order count, most requested first (ties allowed). */
  predicate Sorted(s: seq<Dish>)
  {
    forall i, j :: 0 <= i < j < |s| ==> s[i].orderCount >= s[j].orderCount
  }

  /** Every dish's id is its position plus one. */
  predicate Numbered(s: seq<Dish>)
  {
    forall i :: 0 <= i < |s| ==> s[i].id == i + 1
  }

  /** Every dish has a name and at least one order, as the entry form demands. */
  predicate WellFormed(s: seq<Dish>)
  {
    forall i :: 0 <= i < |s| ==> |s[i].name| > 0 && s[i].orderCount >= 1
  }

  /** The ten dishes the page is seeded with. */
  function Seed(): seq<Dish>
  {
    [ Dish(1, "Spaghetti Carbonara", 342),
      Dish(2, "Margherita Pizza", 310),
      Dish(3, "Grilled Salmon", 275),
      Dish(4, "Caesar Salad", 253),
      Dish(5, "Beef Burger", 230),
      Dish(6, "Chicken Tikka Masala", 218),
      Dish(7, "Vegetable Stir Fry", 205),
      Dish(8, "Chocolate Lava Cake", 189),
      Dish(9, "Mushroom Risotto", 176),
      Dish(10, "Fish and Chips", 162) ]
  }

  /** The seed list already satisfies the leaderboard's invariant. */
  lemma SeedIsRanked()
    ensures |Seed()| == 10
    ensures Sorted(Seed()) && Numbered(Seed()) && WellFormed(Seed())
  {
  }

  /** The whole numbers 1..n. */
  function OneTo(n: nat): set<int>
  {
    if n == 0 then {} else OneTo(n - 1) + {n}
  }

  /** On a numbered list the ids are exactly 1..N, with no gaps and no duplicates. */
  lemma {:induction false} NumberedIdsAreOneToN(s: seq<Dish>)
    requires Numbered(s)
    ensures (set d | d in s :: d.id) == OneTo(|s|)
    ensures forall i, j :: 0 <= i < |s| && 0 <= j < |s| && s[i].id == s[j].id ==> i == j
  {
    if s != [] {
      var n := |s|;
      var init := s[..n - 1];
      assert s == init + [s[n - 1]];
      NumberedIdsAreOneToN(init);
      assert (set d | d in s :: d.id) == (set d | d in init :: d.id) + {n};
    }
  }

  /** On a numbered list a dish is found at the position its id names. */
  lemma NumberedLocates(s: seq<Dish>, d: Dish)
    requires Numbered(s) && d in s
    ensures 1 <= d.id <= |s| && s[d.id - 1] == d
  {
  }
}
