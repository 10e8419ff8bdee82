/**
 * The app's records and the list operations on them: the in-progress
 * selection, favorites, and the collection of custom workouts.
 */
module Records {
  import opened Wrappers
  import opened JsString
  import opened Sequences

  /** A catalog entry. Copies made with `{...exercise}` are equal values. */
  datatype Exercise = Exercise(
    id: string, name: string, muscle: string, description: string, image: string,
    sets: string, rest: string, intensity: string, icon: string, category: string)

  /** A saved workout; `lastUsed` is `None` for `null`. */
  datatype Workout = Workout(
    id: string, name: string, exercises: seq<Exercise>,
    createdAt: string, lastUsed: Option<string>, isFavorite: bool)

  function ExerciseId(e: Exercise): string { e.id }

  function WorkoutId(w: Workout): string { w.id }

  /** The key `saveWorkout` compares names by: `w.name.toLowerCase()`. */
  function LowerName(w: Workout): string { ToLower(w.name) }

  // ---------------------------------------------------------------------
  // The selection
  // ---------------------------------------------------------------------

  /**
   * `toggleExerciseSelection`: remove the first entry with the exercise's
   * id, or append a copy when there is none.
   */
  function Toggle(sel: seq<Exercise>, e: Exercise): (r: seq<Exercise>)
  {
    match IndexOfKey(sel, ExerciseId, e.id)
    case Some(i) => RemoveAt(sel, i)
    case None => sel + [e]
  }

  /** Toggling twice from "not selected" restores the selection. */
  lemma ToggleTwice(sel: seq<Exercise>, e: Exercise)
    requires !HasKey(sel, ExerciseId, e.id)
    ensures Toggle(sel, e) == sel + [e]
    ensures Toggle(Toggle(sel, e), e) == sel
  {
    var t := sel + [e];
    assert forall j :: 0 <= j < |sel| ==> t[j] == sel[j];
    HasKeyAppend(sel, e, ExerciseId, e.id);
    assert IndexOfKey(t, ExerciseId, e.id) == Some(|sel|);
    assert RemoveAt(t, |sel|) == sel;
  }

  /**
   * On a selection without duplicate ids, toggling keeps it duplicate-free,
   * flips whether the exercise's id is selected, and leaves every other id
   * as it was.
   */
  lemma ToggleUnique(sel: seq<Exercise>, e: Exercise)
    requires UniqueKeys(sel, ExerciseId)
    ensures UniqueKeys(Toggle(sel, e), ExerciseId)
    ensures HasKey(Toggle(sel, e), ExerciseId, e.id) <==> !HasKey(sel, ExerciseId, e.id)
    ensures forall id :: id != e.id ==>
      (HasKey(Toggle(sel, e), ExerciseId, id) <==> HasKey(sel, ExerciseId, id))
  {
    match IndexOfKey(sel, ExerciseId, e.id)
    case Some(i) =>
      RemoveAtUnique(sel, i, ExerciseId);
    case None =>
      AppendKeepsUnique(sel, e, ExerciseId);
      forall id ensures HasKey(sel + [e], ExerciseId, id) <==> HasKey(sel, ExerciseId, id) || e.id == id {
        HasKeyAppend(sel, e, ExerciseId, id);
      }
  }

  /**
   * `addFavoriteToWorkout`'s insert: append a copy of the exercise unless
   * an entry with its id is already selected.
   */
  function AddToSelection(sel: seq<Exercise>, e: Exercise): (r: seq<Exercise>)
  {
    if HasKey(sel, ExerciseId, e.id) then sel else sel + [e]
  }

  /** Adding is idempotent, makes the id selected, and keeps ids unique. */
  lemma AddToSelectionProperties(sel: seq<Exercise>, e: Exercise)
    ensures HasKey(AddToSelection(sel, e), ExerciseId, e.id)
    ensures AddToSelection(AddToSelection(sel, e), e) == AddToSelection(sel, e)
    ensures UniqueKeys(sel, ExerciseId) ==> UniqueKeys(AddToSelection(sel, e), ExerciseId)
  {
    HasKeyAppend(sel, e, ExerciseId, e.id);
    if UniqueKeys(sel, ExerciseId) && !HasKey(sel, ExerciseId, e.id) {
      AppendKeepsUnique(sel, e, ExerciseId);
    }
  }

  // ---------------------------------------------------------------------
  // Favorites
  // ---------------------------------------------------------------------

  /**
   * `completeExercise`'s insert: put a copy at the front of the favorites
   * unless one with the same id is there.
   */
  function AddFavorite(favs: seq<Exercise>, e: Exercise): (r: seq<Exercise>)
  {
    if HasKey(favs, ExerciseId, e.id) then favs else [e] + favs
  }

  /**
   * Favorites stay duplicate-free; completing the same exercise twice
   * leaves exactly the entry the first completion made.
   */
  lemma AddFavoriteProperties(favs: seq<Exercise>, e: Exercise)
    ensures HasKey(AddFavorite(favs, e), ExerciseId, e.id)
    ensures AddFavorite(AddFavorite(favs, e), e) == AddFavorite(favs, e)
    ensures UniqueKeys(favs, ExerciseId) ==> UniqueKeys(AddFavorite(favs, e), ExerciseId)
    ensures !HasKey(favs, ExerciseId, e.id) ==> AddFavorite(favs, e)[0] == e && AddFavorite(favs, e)[1..] == favs
  {
    var r := [e] + favs;
    assert r[0] == e && r[1..] == favs;
    if UniqueKeys(favs, ExerciseId) && !HasKey(favs, ExerciseId, e.id) {
      PrependKeepsUnique(e, favs, ExerciseId);
    }
  }

  // ---------------------------------------------------------------------
  // Workouts
  // ---------------------------------------------------------------------

  /**
   * When workout ids are unique, filtering out the id of the workout at
   * `i` (as the replace path of `saveWorkout` does with the first
   * same-named workout) removes exactly that workout.
   */
  lemma FilterByIdRemovesOne(ws: seq<Workout>, i: nat)
    requires UniqueKeys(ws, WorkoutId) && i < |ws|
    ensures WithoutKey(ws, WorkoutId, ws[i].id) == RemoveAt(ws, i)
  {
    IndexOfUniqueKey(ws, WorkoutId, i);
    WithoutUniqueKey(ws, WorkoutId, ws[i].id);
  }
}
