/** The leaderboard page's state: the ranked list, the dish selected for
    editing (if any) and whether the dish dialog is open, together with the
    three events that change them. Each event is one atomic transition. */
module LeaderboardPage {
  import opened Dishes
  import opened Ranking

  datatype Option<T> = None | Some(value: T)

  /** The dish the form submits: the selected dish's id, or the placeholder 0
      when adding. */
  function FormCandidate(selected: Option<Dish>, name: string, orderCount: int): Dish
  {
    Dish(if selected.Some? then selected.value.id else 0, name, orderCount)
  }

  /** In edit mode the form's candidate carries the selected dish's id, so on a
      numbered list it replaces that dish and no other. */
  lemma CandidateReplacesSelection(dishes: seq<Dish>, selected: Dish, name: string, orderCount: int)
    requires Numbered(dishes) && selected in dishes
    ensures 1 <= selected.id <= |dishes| && dishes[selected.id - 1] == selected
    ensures Staged(dishes, FormCandidate(Some(selected), name, orderCount), true)
         == dishes[selected.id - 1 := Dish(selected.id, name, orderCount)]
  {
    NumberedLocates(dishes, selected);
    EditStagesOneReplacement(dishes, FormCandidate(Some(selected), name, orderCount));
  }

  class Page {
    var dishes: seq<Dish>
    var editingDish: Option<Dish>
    var isDialogOpen: bool

    /** The list is ranked and numbered 1..N, every dish has a name and at
        least one order, and a selected dish is one of the listed dishes. */
    ghost predicate Valid()
      reads this
    {
      Sorted(dishes) && Numbered(dishes) && WellFormed(dishes) &&
      (editingDish.Some? ==> editingDish.value in dishes)
    }

    constructor ()
      ensures Valid()
      ensures dishes == Seed() && editingDish == None && !isDialogOpen
    {
      dishes := Seed();
      editingDish := None;
      isDialogOpen := false;
      SeedIsRanked();
    }

    /** The "+" button: forget any selection and open the dialog to add a dish. */
    method BeginAdd()
      requires Valid()
      modifies this
      ensures Valid()
      ensures dishes == old(dishes) && editingDish == None && isDialogOpen
    {
      editingDish := None;
      isDialogOpen := true;
    }

    /** A click on a row: select that dish and open the dialog to edit it. */
    method BeginEdit(d: Dish)
      requires Valid() && d in dishes
      modifies this
      ensures Valid()
      ensures dishes == old(dishes) && editingDish == Some(d) && isDialogOpen
    {
      editingDish := Some(d);
      isDialogOpen := true;
    }

    /** Submitting the form: edit the selected dish, or add a new one when
        nothing is selected; then clear the selection and close the dialog. */
    method Submit(name: string, orderCount: int)
      requires Valid() && isDialogOpen
      requires |name| > 0 && orderCount >= 1
      modifies this
      ensures Valid()
      ensures editingDish == None && !isDialogOpen
      ensures dishes == Upsert(old(dishes), FormCandidate(old(editingDish), name, orderCount), old(editingDish).Some?)
      ensures old(editingDish).Some? ==>
        |dishes| == |old(dishes)| &&
        multiset(Entries(dishes))
          == multiset(Entries(old(dishes))) - multiset{old(editingDish).value.Content()} + multiset{Entry(name, orderCount)}
      ensures old(editingDish).None? ==>
        |dishes| == |old(dishes)| + 1 &&
        multiset(Entries(dishes)) == multiset(Entries(old(dishes))) + multiset{Entry(name, orderCount)}
    {
      var isEdit := editingDish.Some?;
      var candidate := FormCandidate(editingDish, name, orderCount);
      if isEdit {
        NumberedLocates(dishes, editingDish.value);
        UpsertEditContents(dishes, candidate);
      } else {
        UpsertAddContents(dishes, candidate);
      }
      UpsertKeepsWellFormed(dishes, candidate, isEdit);
      dishes := Upsert(dishes, candidate, isEdit);
      editingDish := None;
      isDialogOpen := false;
    }
  }

  /** Opening the add dialog and then clicking a row leaves the clicked dish as
      the only selection: no add-mode state survives. */
  method AddThenEdit(page: Page, d: Dish)
    requires page.Valid() && d in page.dishes
    modifies page
    ensures page.Valid() && page.dishes == old(page.dishes)
    ensures page.editingDish == Some(d) && page.isDialogOpen
  {
    page.BeginAdd();
    page.BeginEdit(d);
  }
}
