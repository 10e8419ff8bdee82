/**
 * Concrete runs of the two handlers whose navigation to the create page
 * discards the selection they have just filled: the same start state,
 * once through the handler as written and once through the corrected one.
 */
module Findings {
  import opened Wrappers
  import opened Sequences
  import opened Records
  import opened NextTreino

  /**
   * Editing the only saved workout, holding exercise `e`: as written the
   * workout leaves the collection and its exercise never reaches the form,
   * so it is gone altogether; corrected, the form holds it.
   */
  method EditScenario(e: Exercise) returns (asWritten: App, corrected: App)
    ensures asWritten.customWorkouts == [] && asWritten.selectedExercises == []
    ensures corrected.customWorkouts == [] && corrected.selectedExercises == [e]
  {
    var w := Workout("1", "Treino A", [e], "2024-01-01T00:00:00.000Z", None, false);
    assert WorkoutId([w][0]) == "1";
    assert [w][1..] == [];
    asWritten := new App(Saved([w]), Absent, Absent);
    var found := asWritten.EditWorkoutAsWritten("1");
    corrected := new App(Saved([w]), Absent, Absent);
    found := corrected.EditWorkout("1");
  }

  /**
   * Adding favorite `f` while `e` is selected: as written both are dropped
   * from the selection; corrected, `f` joins `e`.
   */
  method AddFavoriteScenario(e: Exercise, f: Exercise) returns (asWritten: App, corrected: App)
    requires e.id != f.id
    ensures asWritten.selectedExercises == []
    ensures corrected.selectedExercises == [e, f]
  {
    assert ExerciseId([f][0]) == f.id;
    asWritten := new App(Absent, Saved([f]), Absent);
    asWritten.ToggleExerciseSelection(e);
    assert asWritten.selectedExercises == [e];
    var added := asWritten.AddFavoriteToWorkoutAsWritten(f.id);
    corrected := new App(Absent, Saved([f]), Absent);
    corrected.ToggleExerciseSelection(e);
    assert corrected.selectedExercises == [e];
    added := corrected.AddFavoriteToWorkout(f.id);
    assert [e] + [f] == [e, f];
  }
}
