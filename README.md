# Restaurant leaderboard: a verified model of the ranking page

The repository is a single React page (`src/app/page.tsx`). It shows a
leaderboard of dishes, each with a name and an order count, ranked from most
requested to least. A user can add a dish with the "+" button, or click a row
to edit it. Every submission runs the same update, `handleAddOrEditDish`:

1. In edit mode, the dish whose `id` equals the submitted `id` is replaced.
   In add mode, the new dish is appended with the provisional id `length + 1`.
2. The list is stable-sorted by order count, most requested first.
3. Every dish is renumbered to `id = position + 1`.

After the update the selection is cleared and the dialog closes.

The model has four modules.

- `Dishes` (`dishes.dfy`) defines the `Dish` record and the ten-dish seed list.
  It also defines what a well-kept leaderboard is:
  - `Sorted`: ordered by count, highest first.
  - `Numbered`: every id is its position plus one.
  - `WellFormed`: every dish has a name and at least one order.
- `StableSort` (`stable_sort.dfy`) models `Array.prototype.sort` with the
  comparator `b.orderCount - a.orderCount`. ECMAScript has required this sort
  to be stable since ES2019.
  - `Sort` is an insertion sort.
  - `IsStableSortOf` is a reference definition: the output is sorted, and the
    dishes of each count keep their input order.
  - The model proves that `Sort` meets this definition and that exactly one
    list does.
- `Ranking` (`ranking.dfy`) holds the update as the pure function `Upsert`,
  built from `ReplaceById`, `Sort` and `Renumber`. The source chains `map`,
  `sort` and `map` and never mutates the previous list. The lemmas beside
  `Upsert` state that:
  - the result is ranked and numbered 1..N;
  - the length grows by one on an add and stays the same on an edit;
  - the contents change by exactly the submitted dish;
  - dishes with equal counts keep their relative order;
  - resubmitting a dish unchanged is a no-op;
  - a dish with a count above every other count takes rank 1, and one with a
    count at or below every other count takes the last rank.
- `LeaderboardPage` (`page.dfy`) models the component's three state cells
  (`dishes`, `editingDish`, `isDialogOpen`) as the fields of the class `Page`.
  - Its methods are the three events: the "+" button, a row click and a form
    submission.
  - Its invariant `Valid` says that the list is sorted, numbered 1..N and
    well-formed, and that a selected dish is one of the listed dishes.
  - `FormCandidate` builds the submitted dish the way `DishForm.handleSubmit`
    does: the selected dish's id, or 0 when adding.

The page's text inputs, parsing and browser validation are not modelled.
`Submit` takes the final name and count directly. It requires a non-empty
name and a count of at least 1, which are the constraints the form's inputs
enforce.

## Model

| member | source | states |
|---|---|---|
| `Dishes.SeedIsRanked` | src/app/page.tsx:18-29 | The ten seed dishes are already sorted by count, numbered 1..10 and well-formed. |
| `Dishes.NumberedIdsAreOneToN` | src/app/page.tsx:39 | When every id is position + 1, the set of ids is exactly {1..N}, with no duplicates. |
| `Dishes.NumberedLocates` | src/app/page.tsx:37 | On a numbered list, a listed dish has an id in 1..N and sits at position id - 1. |
| `StableSort.WithCountMember` | src/app/page.tsx:38 | The dishes of count c taken from a list are exactly the listed dishes with that count. |
| `StableSort.Insert` | src/app/page.tsx:38 | Inserting a dish into a sorted list adds exactly that dish and keeps the list sorted. |
| `StableSort.Sort` | src/app/page.tsx:38 | The sort's output is ordered by count, highest first, and is a permutation of its input. |
| `StableSort.InsertKeepsTies` | src/app/page.tsx:38 | An inserted dish goes in front of the dishes of its own count, and no dish passes another of equal count. |
| `StableSort.SortIsStable` | src/app/page.tsx:38 | The sort is stable: for every count, the output's dishes of that count are the input's, in the input's order. |
| `StableSort.StableSortIsUnique` | src/app/page.tsx:38 | Two sorted lists that agree on the ordered dishes of every count are equal, so a stable sort's result is determined by its input. |
| `StableSort.SortIsTheStableSort` | src/app/page.tsx:38 | Any list that is a stable sort of the input equals `Sort` of the input. |
| `StableSort.SortedIsFixed` | src/app/page.tsx:38 | Sorting an already sorted list returns it unchanged. |
| `StableSort.SortKeepsLowestLast` | src/app/page.tsx:43-44 | A dish appended with a count at or below every other stays last after sorting. |
| `StableSort.SortLiftsGreatest` | src/app/page.tsx:37-38 | A dish whose count exceeds every other goes first, and the rest are sorted as they would be without it. |
| `Ranking.Renumber` | src/app/page.tsx:39 | The result is numbered 1..N, has the same names and counts in the same order, and is still sorted if the input was. |
| `Ranking.RenumberNumbered` | src/app/page.tsx:39 | Renumbering a list that is already numbered 1..N changes nothing. |
| `Ranking.ReplaceById` | src/app/page.tsx:37 | On a numbered list, an id in 1..N replaces exactly the dish at position id - 1. Any other id changes nothing. |
| `Ranking.Upsert` | src/app/page.tsx:34-47 | After either branch the list is sorted by count and numbered 1..N. An add grows it by one and an edit keeps its length. |
| `Ranking.EditStagesOneReplacement` | src/app/page.tsx:37 | The edit branch's `map` replaces one dish when the submitted id is a rank, and none otherwise. |
| `Ranking.EntriesOfPermutation` | src/app/page.tsx:38 | Reordering the dishes reorders their (name, count) pairs the same way, so the sort keeps the contents. |
| `Ranking.SameEntriesSameTies` | src/app/page.tsx:39 | Renumbering does not change which names and counts share a count, or their order. |
| `Ranking.UpsertAddContents` | src/app/page.tsx:42-46 | After an add, the multiset of (name, count) pairs is the previous one plus the new pair. |
| `Ranking.UpsertEditContents` | src/app/page.tsx:36-40 | After an edit, the multiset of (name, count) pairs is the previous one with the edited dish's pair swapped for the submitted pair. |
| `Ranking.UpsertAddKeepsTies` | src/app/page.tsx:43-45 | After an add, dishes of equal count keep their previous order, and the new dish comes after every existing dish of its count. |
| `Ranking.UpsertEditKeepsTies` | src/app/page.tsx:37-39 | After an edit, dishes of equal count keep their previous order, with the edited dish where it stood. |
| `Ranking.UpsertKeepsWellFormed` | src/app/page.tsx:36-46 | Given a named candidate with at least one order, every dish in the result still has a name and at least one order. |
| `Ranking.ResubmitIsIdentity` | src/app/page.tsx:36-39 | On a sorted, numbered list, editing a dish and resubmitting its own id, name and count returns the identical list. |
| `Ranking.EditOfUnknownIdIsIdentity` | src/app/page.tsx:37-39 | On a sorted, numbered list, an edit whose id names no rank changes nothing. |
| `Ranking.AddLowestTakesLastRank` | src/app/page.tsx:43-45 | A dish added with a count at or below every other gets the last rank, N + 1. |
| `Ranking.AddHighestTakesFirstRank` | src/app/page.tsx:43-45 | A dish added with a count above every other gets rank 1, and every other dish moves down one rank. |
| `Ranking.SortedWithout` | src/app/page.tsx:37-38 | Removing one dish from a sorted list leaves it sorted. |
| `Ranking.OthersRankBelow` | src/app/page.tsx:37 | If every other dish's count is below the edited dish's, so is the count of every dish left after removing it. |
| `Ranking.EditToHighestSorts` | src/app/page.tsx:37-38 | Editing a dish to a count above all others makes the sort put it first and leave the others in their order. |
| `Ranking.RenumberedAfterLift` | src/app/page.tsx:39 | After renumbering, the dishes that were above the lifted dish move down one rank, and those below keep theirs. |
| `Ranking.EditToHighestTakesFirstRank` | src/app/page.tsx:36-39 | A dish edited to a count above all others takes rank 1. The dishes it passed move down one rank, and those below keep theirs. |
| `Ranking.SeedAddAtTop` | src/app/page.tsx:19-45 | Adding "Truffle Pasta" with 400 orders to the seed list makes it rank 1, and "Spaghetti Carbonara" rank 2. |
| `Ranking.SeedEditToTop` | src/app/page.tsx:19-39 | Editing "Fish and Chips" (rank 10) to 500 orders makes it rank 1, and every other seed dish moves down one rank. |
| `Ranking.SeedAddAtBottom` | src/app/page.tsx:19-45 | A dish added to the seed list with one order gets the last rank, 11. |
| `LeaderboardPage.CandidateReplacesSelection` | src/app/page.tsx:113-117 | An edit-mode submission carries the selected dish's id, so on a numbered list it replaces exactly the selected dish. |
| `LeaderboardPage.Page.constructor` | src/app/page.tsx:18-32 | Starts with the seed list, nothing selected and the dialog closed, with the invariant established. |
| `LeaderboardPage.Page.BeginAdd` | src/app/page.tsx:56-62 | The "+" button clears any selection and opens the dialog. The list is unchanged. |
| `LeaderboardPage.Page.BeginEdit` | src/app/page.tsx:84-87 | A row click selects that row's dish and opens the dialog. The list is unchanged. |
| `LeaderboardPage.Page.Submit` | src/app/page.tsx:34-50 | Applies `Upsert` in edit mode exactly when a dish is selected, then clears the selection and closes the dialog. It keeps the invariant and states the length and content change. |
| `LeaderboardPage.AddThenEdit` | src/app/page.tsx:58-87 | Opening the add dialog and then clicking a row leaves only that row's dish selected, with the dialog open. |

## Left out

- Rendering is not modelled (src/app/page.tsx:52-104): the JSX, the styling, the top-3 highlight, the rank badge and the dialog title. It is presentation only.
- The UI components (`Card`, `Badge`, `Button`, `Dialog`, `Input`, `Label`) and the icon library are not modelled. They are library code outside this repository.
- `parseInt(orderCount, 10)` on raw text (src/app/page.tsx:116) is not modelled, and neither is the `NaN` it yields for non-numeric text. A `NaN` comparator result makes the sort order implementation-defined. Order counts are mathematical integers here.
- Browser form validation (src/app/page.tsx:128, 138-139) is not modelled. `Submit` takes it as its precondition: a non-empty name and a count of at least 1.
- Order counts are JavaScript numbers (doubles). The model does not capture precision loss above 2^53.
- The dialog's own dismiss path, `onOpenChange` with `false` (src/app/page.tsx:56), is not modelled. In the source it closes the dialog but does not clear `editingDish`. Both ways of reopening the dialog reset the selection (src/app/page.tsx:62, 85), so the stale selection never reaches a submission.
- The form's per-keystroke field state and its initial values are not modelled (src/app/page.tsx:108-109, 127, 137). `Submit` receives the final name and count.
- React's `useState` updater functions and batching are not modelled. Each event is one atomic transition of the `Page` object.
