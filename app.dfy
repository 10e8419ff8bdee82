/**
 * The application state of NextTreino: the module-level variables of the
 * script as the fields of one object, and every handler that changes
 * them as a method. The three `localStorage` keys are fields holding what
 * was last written to them.
 */
module NextTreino {
  import opened Wrappers
  import opened JsString
  import opened Sequences
  import opened Records
  import opened RestTime
  import RestTimer

  /** A `localStorage` key: missing (or empty), holding a record, or holding text `JSON.parse` rejects. */
  datatype Slot<T> = Absent | Saved(value: T) | Corrupt

  /** The lists and the current workout as `loadSavedData` restores them. */
  datatype Loaded = Loaded(workouts: seq<Workout>, favorites: seq<Exercise>, current: Option<Workout>)

  /**
   * `loadSavedData`: each present key replaces the initial empty value.
   * A key that fails to parse aborts the reading; the handler then empties
   * both lists, and the current workout, read last, is never assigned.
   */
  function LoadSavedData(ws: Slot<seq<Workout>>, fs: Slot<seq<Exercise>>, cur: Slot<Workout>): (r: Loaded)
  {
    if ws.Corrupt? || fs.Corrupt? || cur.Corrupt? then Loaded([], [], None)
    else Loaded(
      if ws.Saved? then ws.value else [],
      if fs.Saved? then fs.value else [],
      if cur.Saved? then Some(cur.value) else None)
  }

  /** What writing a state to the three keys stores, when nothing is left missing. */
  function Store(l: Loaded): (Slot<seq<Workout>>, Slot<seq<Exercise>>, Slot<Workout>)
  {
    (Saved(l.workouts), Saved(l.favorites), if l.current.Some? then Saved(l.current.value) else Absent)
  }

  /**
   * A key that fails to parse leaves the app as a first visit does: the
   * state read is the one read from empty storage, which is empty.
   */
  lemma CorruptLoadsAsEmpty(ws: Slot<seq<Workout>>, fs: Slot<seq<Exercise>>, cur: Slot<Workout>)
    ensures LoadSavedData(Absent, Absent, Absent) == Loaded([], [], None)
    ensures ws.Corrupt? || fs.Corrupt? || cur.Corrupt? ==>
      LoadSavedData(ws, fs, cur) == LoadSavedData(Absent, Absent, Absent)
  {
  }

  /** Reading back what was written restores it exactly. */
  lemma LoadStoreRoundTrip(l: Loaded)
    ensures LoadSavedData(Store(l).0, Store(l).1, Store(l).2) == l
  {
  }

  /** A list key holds `v`: written with it, or missing while `v` is empty. */
  predicate ListHolds<T(==)>(slot: Slot<seq<T>>, v: seq<T>)
  {
    slot == Saved(v) || (slot.Absent? && v == [])
  }

  /** The current-workout key holds `v`: written with the workout, or removed when there is none. */
  predicate CurrentHolds(slot: Slot<Workout>, v: Option<Workout>)
  {
    if v.Some? then slot == Saved(v.value) else slot.Absent?
  }

  /**
   * The keys hold a state exactly when they are all readable and
   * `loadSavedData` restores that state from them.
   */
  lemma ReloadRestores(ws: Slot<seq<Workout>>, fs: Slot<seq<Exercise>>, cur: Slot<Workout>, l: Loaded)
    ensures ListHolds(ws, l.workouts) && ListHolds(fs, l.favorites) && CurrentHolds(cur, l.current)
        <==> !ws.Corrupt? && !fs.Corrupt? && !cur.Corrupt? && LoadSavedData(ws, fs, cur) == l
  {
  }

  /** The exercise at position `i` of the workout, if there is one (`exercises[i]` is defined). */
  function ExerciseAt(w: Option<Workout>, i: nat): Option<Exercise>
  {
    if w.Some? && i < |w.value.exercises| then Some(w.value.exercises[i]) else None
  }

  /** The rest seconds `updateCurrentExercise` shows for position `i`, if its rest names any. */
  function ShownRest(w: Option<Workout>, i: nat): Option<nat>
  {
    match ExerciseAt(w, i)
    case Some(e) => RestSeconds(e.rest)
    case None => None
  }

  /** A workout the training page can show: present, with at least one exercise. */
  predicate HasExercises(w: Option<Workout>)
  {
    w.Some? && |w.value.exercises| > 0
  }

  /**
   * The workout `updateTrainPage` trains: the current one when it has
   * exercises, otherwise the first of the collection, if any.
   */
  function TrainTarget(cur: Option<Workout>, ws: seq<Workout>): Option<Workout>
  {
    if HasExercises(cur) || ws == [] then cur else Some(ws[0])
  }

  /**
   * A trainable current workout is kept; with a non-empty collection
   * there is always a workout to show, and it is the current one or a
   * listed one. There is something to train exactly when the current
   * workout or the first listed one has exercises (the fallback does not
   * check its own), and opening the page again changes nothing.
   */
  lemma TrainTargetProperties(cur: Option<Workout>, ws: seq<Workout>)
    ensures HasExercises(cur) ==> TrainTarget(cur, ws) == cur
    ensures ws != [] ==> TrainTarget(cur, ws).Some?
    ensures TrainTarget(cur, ws) == cur || TrainTarget(cur, ws).value in ws
    ensures HasExercises(TrainTarget(cur, ws)) <==> HasExercises(cur) || (ws != [] && HasExercises(Some(ws[0])))
    ensures TrainTarget(TrainTarget(cur, ws), ws) == TrainTarget(cur, ws)
  {
  }

  /** The verdict of `saveWorkout` on a trimmed name, the selection and the collection. */
  datatype SaveCheck =
    | BlankName                 // the trimmed name is empty
    | ShortName                 // it has fewer than 3 characters
    | NothingSelected           // no exercise is selected
    | NameTaken(index: nat)     // the workout at `index` has the same name, ignoring case
    | NameFree                  // the workout can be saved

  /** The checks of `saveWorkout`, in its order (characterised by `CheckSaveSpec`). */
  function CheckSave(name: string, sel: seq<Exercise>, ws: seq<Workout>): (r: SaveCheck)
    ensures r.NameTaken? ==> r.index < |ws|
  {
    if name == [] then BlankName
    else if |name| < 3 then ShortName
    else if sel == [] then NothingSelected
    else match IndexOfKey(ws, LowerName, ToLower(name))
      case Some(i) => NameTaken(i)
      case None => NameFree
  }

  /**
   * A name is required, then at least 3 characters, then a selection; a
   * valid request is told apart by whether some workout has the same
   * lower-cased name, and then names the first such workout.
   */
  lemma CheckSaveSpec(name: string, sel: seq<Exercise>, ws: seq<Workout>)
    ensures CheckSave(name, sel, ws).BlankName? <==> name == []
    ensures CheckSave(name, sel, ws).ShortName? <==> 0 < |name| < 3
    ensures CheckSave(name, sel, ws).NothingSelected? <==> |name| >= 3 && sel == []
    ensures CheckSave(name, sel, ws).NameTaken? || CheckSave(name, sel, ws).NameFree? <==> |name| >= 3 && sel != []
    ensures CheckSave(name, sel, ws).NameFree? ==> !HasKey(ws, LowerName, ToLower(name))
    ensures CheckSave(name, sel, ws).NameTaken? ==>
      var i := CheckSave(name, sel, ws).index;
      && ToLower(ws[i].name) == ToLower(name)
      && forall j :: 0 <= j < i ==> ToLower(ws[j].name) != ToLower(name)
  {
  }

  /**
   * A completed save keeps workout names unique ignoring case: the saved
   * workout goes in front of a collection that no longer holds its name,
   * either because no workout had it or because the replace removed the
   * one that did.
   */
  lemma SaveKeepsNamesUnique(name: string, sel: seq<Exercise>, ws: seq<Workout>, w: Workout)
    requires UniqueKeys(ws, LowerName) && UniqueKeys(ws, WorkoutId)
    requires CheckSave(name, sel, ws).NameFree? || CheckSave(name, sel, ws).NameTaken?
    requires w.name == name
    ensures UniqueKeys([w] + Kept(CheckSave(name, sel, ws), ws), LowerName)
  {
    var c := CheckSave(name, sel, ws);
    CheckSaveSpec(name, sel, ws);
    if c.NameTaken? {
      RemoveAtUnique(ws, c.index, LowerName);
      PrependKeepsUnique(w, RemoveAt(ws, c.index), LowerName);
    } else {
      PrependKeepsUnique(w, ws, LowerName);
    }
  }

  /**
   * The collection a saved workout is put in front of: on a name
   * collision, without the workouts that share the matching one's id.
   * With unique ids that is the collection minus exactly that workout.
   */
  ghost function Kept(check: SaveCheck, ws: seq<Workout>): (r: seq<Workout>)
    requires check.NameTaken? ==> check.index < |ws|
    ensures !check.NameTaken? ==> r == ws
    ensures check.NameTaken? && UniqueKeys(ws, WorkoutId) ==> r == RemoveAt(ws, check.index)
  {
    if check.NameTaken? then
      // Both branches give the same list; the first only brings in the
      // lemma that makes the RemoveAt postcondition hold.
      if UniqueKeys(ws, WorkoutId) then
        FilterByIdRemovesOne(ws, check.index);
        WithoutKey(ws, WorkoutId, ws[check.index].id)
      else WithoutKey(ws, WorkoutId, ws[check.index].id)
    else ws
  }

  class App {
    var currentWorkout: Option<Workout>
    var currentExerciseIndex: nat
    var selectedExercises: seq<Exercise>
    var customWorkouts: seq<Workout>
    var favoriteExercises: seq<Exercise>
    /** The value of the create page's name input. */
    var workoutName: string
    var remainingRestTime: nat
    var totalRestTime: nat
    var isRestTimerActive: bool
    /** `restTimerInterval !== null` */
    var timerRunning: bool
    /** The keys `NextTreinoWorkouts`, `NextTreinoFavorites` and `NextTreinoCurrent`. */
    var savedWorkouts: Slot<seq<Workout>>
    var savedFavorites: Slot<seq<Exercise>>
    var savedCurrent: Slot<Workout>

    function TimerState(): RestTimer.Timer
      reads this`remainingRestTime, this`totalRestTime, this`isRestTimerActive, this`timerRunning
    {
      RestTimer.Timer(remainingRestTime, totalRestTime, isRestTimerActive, timerRunning)
    }

    /**
     * The countdown stays within the full rest, and the cursor points at
     * an exercise of the current workout (or is 0).
     */
    predicate Valid()
      reads this`remainingRestTime, this`totalRestTime, this`isRestTimerActive, this`timerRunning
      reads this`currentWorkout, this`currentExerciseIndex
    {
      && RestTimer.Valid(TimerState())
      && (currentWorkout.Some? ==>
            currentExerciseIndex == 0 || currentExerciseIndex < |currentWorkout.value.exercises|)
    }

    /**
     * Ids are unique in the collection, the favorites, the selection, and
     * within every saved workout. Nothing enforces this on what storage
     * holds, so the handlers keep it when it held before.
     */
    ghost predicate WellFormed()
      reads this`customWorkouts, this`favoriteExercises, this`selectedExercises
    {
      && UniqueKeys(customWorkouts, WorkoutId)
      && UniqueKeys(favoriteExercises, ExerciseId)
      && UniqueKeys(selectedExercises, ExerciseId)
      && (forall w :: w in customWorkouts ==> UniqueKeys(w.exercises, ExerciseId))
    }

    /**
     * Storage holds the lists and the current workout, so a reload would
     * restore exactly them (`ReloadRestores`).
     */
    predicate InSync()
      reads this`savedWorkouts, this`savedFavorites, this`savedCurrent
      reads this`customWorkouts, this`favoriteExercises, this`currentWorkout
    {
      && ListHolds(savedWorkouts, customWorkouts)
      && ListHolds(savedFavorites, favoriteExercises)
      && CurrentHolds(savedCurrent, currentWorkout)
    }

    /** The current workout, if any, is one of the collection (by id). */
    predicate CurrentListed()
      reads this`currentWorkout, this`customWorkouts
    {
      currentWorkout.Some? ==> HasKey(customWorkouts, WorkoutId, currentWorkout.value.id)
    }

    /** Page start-up: the initial globals, then `loadSavedData` over the three keys. */
    constructor (workouts: Slot<seq<Workout>>, favorites: Slot<seq<Exercise>>, current: Slot<Workout>)
      ensures Loaded(customWorkouts, favoriteExercises, currentWorkout) == LoadSavedData(workouts, favorites, current)
      ensures savedWorkouts == workouts && savedFavorites == favorites && savedCurrent == current
      ensures selectedExercises == [] && workoutName == "" && currentExerciseIndex == 0
      ensures TimerState() == RestTimer.Initial
      ensures Valid()
      ensures !workouts.Corrupt? && !favorites.Corrupt? && !current.Corrupt? ==> InSync()
    {
      var l := LoadSavedData(workouts, favorites, current);
      currentWorkout := l.current;
      currentExerciseIndex := 0;
      selectedExercises := [];
      customWorkouts := l.workouts;
      favoriteExercises := l.favorites;
      workoutName := "";
      remainingRestTime := 90;
      totalRestTime := 90;
      isRestTimerActive := false;
      timerRunning := false;
      savedWorkouts := workouts;
      savedFavorites := favorites;
      savedCurrent := current;
      ReloadRestores(workouts, favorites, current, l);
    }

    // -------------------------------------------------------------------
    // The create page
    // -------------------------------------------------------------------

    /** `initCreatePage`: opening the create page empties the selection. */
    method InitCreatePage()
      modifies this`selectedExercises
      ensures selectedExercises == []
    {
      selectedExercises := [];
    }

    /**
     * `toggleExerciseSelection`: the selection becomes `Toggle` of the old
     * one; on a duplicate-free selection the exercise's selected state flips.
     */
    method ToggleExerciseSelection(e: Exercise)
      modifies this`selectedExercises
      ensures selectedExercises == Toggle(old(selectedExercises), e)
      ensures old(WellFormed()) ==> WellFormed()
      ensures old(WellFormed()) ==>
        (HasKey(selectedExercises, ExerciseId, e.id) <==> !HasKey(old(selectedExercises), ExerciseId, e.id))
    {
      if UniqueKeys(selectedExercises, ExerciseId) {
        ToggleUnique(selectedExercises, e);
      }
      selectedExercises := Toggle(selectedExercises, e);
    }

    /** The remove button of the selected item at position `i` (`splice(i, 1)`; no-op out of range). */
    method RemoveSelectedAt(i: nat)
      modifies this`selectedExercises
      ensures selectedExercises == if i < |old(selectedExercises)| then RemoveAt(old(selectedExercises), i) else old(selectedExercises)
      ensures old(WellFormed()) ==> WellFormed()
    {
      if i < |selectedExercises| {
        if UniqueKeys(selectedExercises, ExerciseId) {
          RemoveAtUnique(selectedExercises, i, ExerciseId);
        }
        selectedExercises := RemoveAt(selectedExercises, i);
      }
    }

    /** `cancelCreation`, confirmed: a non-empty selection and the name input are cleared. */
    method CancelCreation()
      modifies this`selectedExercises, this`workoutName
      ensures old(selectedExercises) == [] ==> unchanged(this)
      ensures old(selectedExercises) != [] ==> selectedExercises == [] && workoutName == ""
    {
      if |selectedExercises| > 0 {
        selectedExercises := [];
        workoutName := "";
      }
    }

    /**
     * The first half of `finishSavingWorkout`: `w` goes to the front of
     * the collection and becomes the current workout, both are written to
     * storage, and the form is cleared.
     */
    method StoreNewWorkout(w: Workout)
      modifies this`customWorkouts, this`savedWorkouts, this`currentWorkout, this`savedCurrent
      modifies this`selectedExercises, this`workoutName
      ensures customWorkouts == [w] + old(customWorkouts) && savedWorkouts == Saved(customWorkouts)
      ensures currentWorkout == Some(w) && savedCurrent == Saved(w)
      ensures selectedExercises == [] && workoutName == ""
      ensures old(WellFormed()) && UniqueKeys(w.exercises, ExerciseId) && !HasKey(old(customWorkouts), WorkoutId, w.id) ==> WellFormed()
      ensures ListHolds(savedFavorites, favoriteExercises) ==> InSync()
      ensures CurrentListed()
    {
      if UniqueKeys(customWorkouts, WorkoutId) && !HasKey(customWorkouts, WorkoutId, w.id) {
        PrependKeepsUnique(w, customWorkouts, WorkoutId);
      }
      customWorkouts := [w] + customWorkouts;
      savedWorkouts := Saved(customWorkouts);
      currentWorkout := Some(w);
      savedCurrent := Saved(w);
      selectedExercises := [];
      workoutName := "";
      assert customWorkouts[0] == w;
    }

    /**
     * `finishSavingWorkout`: the new workout, holding a copy of the
     * selection, is stored as in `StoreNewWorkout`, and the training page
     * opens on its first exercise.
     */
    method FinishSavingWorkout(name: string, id: string, now: string)
      requires Valid()
      modifies this`customWorkouts, this`savedWorkouts, this`currentWorkout, this`savedCurrent
      modifies this`selectedExercises, this`workoutName, this`currentExerciseIndex
      modifies this`remainingRestTime, this`totalRestTime
      ensures Valid()
      ensures var w := Workout(id, name, old(selectedExercises), now, None, false);
        && customWorkouts == [w] + old(customWorkouts) && savedWorkouts == Saved(customWorkouts)
        && currentWorkout == Some(w) && savedCurrent == Saved(w)
      ensures selectedExercises == [] && workoutName == "" && currentExerciseIndex == 0
      ensures TimerState() == RestTimer.Show(old(TimerState()), ShownRest(currentWorkout, 0))
      ensures old(WellFormed()) && !HasKey(old(customWorkouts), WorkoutId, id) ==> WellFormed()
      ensures old(ListHolds(savedFavorites, favoriteExercises)) ==> InSync()
      ensures CurrentListed()
    {
      StoreNewWorkout(Workout(id, name, selectedExercises, now, None, false));
      UpdateTrainPage();
    }

    /**
     * `saveWorkout`, with `replaceConfirmed` the answer to the replace
     * prompt: `check` is its verdict on the trimmed name, the selection
     * and the collection. A rejected name or selection, or a declined
     * replace, changes nothing; otherwise the workout is saved as in
     * `FinishSavingWorkout`, after the one with the same name is dropped.
     */
    method SaveWorkout(replaceConfirmed: bool, id: string, now: string) returns (check: SaveCheck, saved: Option<Workout>)
      requires Valid()
      modifies this`customWorkouts, this`savedWorkouts, this`currentWorkout, this`savedCurrent
      modifies this`selectedExercises, this`workoutName, this`currentExerciseIndex
      modifies this`remainingRestTime, this`totalRestTime
      ensures Valid()
      ensures check == CheckSave(Trim(old(workoutName)), old(selectedExercises), old(customWorkouts))
      ensures saved.Some? <==> check.NameFree? || (check.NameTaken? && replaceConfirmed)
      ensures saved.None? ==> unchanged(this)
      ensures saved.Some? ==>
        && saved.value == Workout(id, Trim(old(workoutName)), old(selectedExercises), now, None, false)
        && customWorkouts == [saved.value] + Kept(check, old(customWorkouts))
        && savedWorkouts == Saved(customWorkouts)
        && currentWorkout == Some(saved.value) && savedCurrent == Saved(saved.value)
        && selectedExercises == [] && workoutName == "" && currentExerciseIndex == 0
        && TimerState() == RestTimer.Show(old(TimerState()), ShownRest(currentWorkout, 0))
      ensures old(WellFormed()) && !HasKey(old(customWorkouts), WorkoutId, id) ==> WellFormed()
      ensures old(InSync()) ==> InSync()
      ensures saved.Some? ==> CurrentListed()
      ensures saved.Some? && old(UniqueKeys(customWorkouts, LowerName)) && old(WellFormed()) ==>
        UniqueKeys(customWorkouts, LowerName)
    {
      ghost var ws0, sel0 := customWorkouts, selectedExercises;
      ghost var names0 := UniqueKeys(customWorkouts, LowerName) && WellFormed();
      var name := Trim(workoutName);
      check := CheckSave(name, selectedExercises, customWorkouts);
      if check.NameTaken? {
        if !replaceConfirmed {
          return check, None;
        }
        RemoveWorkoutsWithId(customWorkouts[check.index].id);
      } else if !check.NameFree? {
        return check, None;
      }
      FinishSavingWorkout(name, id, now);
      saved := currentWorkout;
      if names0 {
        SaveKeepsNamesUnique(name, sel0, ws0, saved.value);
      }
    }

    /**
     * `customWorkouts.filter(w => w.id !== id)`, shared by the replace
     * path of `saveWorkout`, `editWorkout` and `deleteWorkout`: the
     * workouts with the id go, the others keep their order.
     */
    method RemoveWorkoutsWithId(id: string)
      modifies this`customWorkouts
      ensures customWorkouts == WithoutKey(old(customWorkouts), WorkoutId, id)
      ensures !HasKey(old(customWorkouts), WorkoutId, id) ==> customWorkouts == old(customWorkouts)
      ensures HasKey(old(customWorkouts), WorkoutId, id) && UniqueKeys(old(customWorkouts), WorkoutId) ==>
        customWorkouts == RemoveAt(old(customWorkouts), IndexOfKey(old(customWorkouts), WorkoutId, id).value)
      ensures forall k :: HasKey(customWorkouts, WorkoutId, k) <==> k != id && HasKey(old(customWorkouts), WorkoutId, k)
      ensures old(WellFormed()) ==> WellFormed()
    {
      ghost var before := customWorkouts;
      if !HasKey(before, WorkoutId, id) {
        WithoutAbsentKey(before, WorkoutId, id);
      } else if UniqueKeys(before, WorkoutId) {
        WithoutUniqueKey(before, WorkoutId, id);
      }
      if UniqueKeys(before, WorkoutId) {
        WithoutKeyKeepsUnique(before, WorkoutId, id);
      }
      WithoutKeyElements(before, WorkoutId, id);
      forall k ensures HasKey(WithoutKey(before, WorkoutId, id), WorkoutId, k) <==> k != id && HasKey(before, WorkoutId, k) {
        WithoutKeyHasKey(before, WorkoutId, id, k);
      }
      customWorkouts := WithoutKey(customWorkouts, WorkoutId, id);
    }

    // -------------------------------------------------------------------
    // The workouts page
    // -------------------------------------------------------------------

    /**
     * The first half of `loadWorkout`: the workout at `i` becomes current
     * (the key receiving it as it is), and is then stamped as used, in the
     * collection and, the object being the same, in `currentWorkout`.
     */
    method MarkUsed(i: nat, now: string)
      requires i < |customWorkouts|
      modifies this`currentWorkout, this`savedCurrent, this`customWorkouts, this`savedWorkouts
      ensures var stamped := old(customWorkouts)[i].(lastUsed := Some(now));
        && customWorkouts == old(customWorkouts)[i := stamped] && savedWorkouts == Saved(customWorkouts)
        && currentWorkout == Some(stamped) && savedCurrent == Saved(old(customWorkouts)[i])
      ensures old(WellFormed()) ==> WellFormed()
      ensures CurrentListed()
    {
      var workout := customWorkouts[i];
      currentWorkout := Some(workout);
      savedCurrent := Saved(workout);
      var stamped := workout.(lastUsed := Some(now));
      ghost var before := customWorkouts;
      customWorkouts := customWorkouts[i := stamped];
      if UniqueKeys(before, WorkoutId) {
        SameKeysKeepUnique(before, customWorkouts, WorkoutId);
      }
      assert forall w :: w in customWorkouts ==> w in before || w == stamped;
      savedWorkouts := Saved(customWorkouts);
      currentWorkout := Some(stamped);
      assert customWorkouts[i] == stamped;
    }

    /**
     * `loadWorkout`: an unknown id changes nothing. Otherwise the first
     * workout with the id is marked used as in `MarkUsed`, and the training
     * page opens on it. The current key is written before the stamp, so it
     * holds the workout as it was.
     */
    method LoadWorkout(id: string, now: string) returns (found: bool)
      requires Valid()
      modifies this`currentWorkout, this`savedCurrent, this`customWorkouts, this`savedWorkouts
      modifies this`currentExerciseIndex, this`remainingRestTime, this`totalRestTime, this`selectedExercises
      ensures Valid()
      ensures found <==> HasKey(old(customWorkouts), WorkoutId, id)
      ensures !found ==> unchanged(this)
      ensures found ==>
        var i := IndexOfKey(old(customWorkouts), WorkoutId, id).value;
        var stamped := old(customWorkouts)[i].(lastUsed := Some(now));
        && customWorkouts == old(customWorkouts)[i := stamped]
        && savedWorkouts == Saved(customWorkouts)
        && currentWorkout == TrainTarget(Some(stamped), customWorkouts)
        && savedCurrent == (if HasExercises(Some(stamped)) then Saved(old(customWorkouts)[i]) else Saved(customWorkouts[0]))
        && currentExerciseIndex == 0 && selectedExercises == old(selectedExercises)
        && TimerState() == RestTimer.Show(old(TimerState()), ShownRest(currentWorkout, 0))
      ensures old(WellFormed()) ==> WellFormed()
      ensures found ==> CurrentListed()
    {
      var m := IndexOfKey(customWorkouts, WorkoutId, id);
      if m.None? {
        return false;
      }
      found := true;
      MarkUsed(m.value, now);
      UpdateTrainPage();
    }

    /**
     * `editWorkout`, as the create page is evidently meant to open: the
     * name input and the selection take the workout's name and exercises,
     * and every workout with the id is removed from the collection and
     * from storage. The current workout is left as it was, so editing it
     * leaves it outside the collection.
     */
    method EditWorkout(id: string) returns (found: bool)
      modifies this`workoutName, this`selectedExercises, this`customWorkouts, this`savedWorkouts
      ensures found <==> HasKey(old(customWorkouts), WorkoutId, id)
      ensures !found ==> unchanged(this)
      ensures found ==>
        var w := old(customWorkouts)[IndexOfKey(old(customWorkouts), WorkoutId, id).value];
        && workoutName == w.name && selectedExercises == w.exercises
        && customWorkouts == WithoutKey(old(customWorkouts), WorkoutId, id)
        && savedWorkouts == Saved(customWorkouts)
      ensures !HasKey(customWorkouts, WorkoutId, id)
      ensures found && UniqueKeys(old(customWorkouts), WorkoutId) ==>
        customWorkouts == RemoveAt(old(customWorkouts), IndexOfKey(old(customWorkouts), WorkoutId, id).value)
      ensures old(WellFormed()) ==> WellFormed()
      ensures old(InSync()) ==> InSync()
      ensures old(CurrentListed()) && !(currentWorkout.Some? && currentWorkout.value.id == id) ==> CurrentListed()
      ensures found && currentWorkout.Some? && currentWorkout.value.id == id ==> !CurrentListed()
    {
      var m := IndexOfKey(customWorkouts, WorkoutId, id);
      if m.None? {
        return false;
      }
      found := true;
      FillForm(customWorkouts[m.value]);
      DropWorkout(id);
    }

    /** The form part of `editWorkout`: the name input and the selection take the workout's name and exercises. */
    method FillForm(w: Workout)
      modifies this`workoutName, this`selectedExercises
      ensures workoutName == w.name && selectedExercises == w.exercises
      ensures old(WellFormed()) && w in customWorkouts ==> WellFormed()
    {
      workoutName := w.name;
      selectedExercises := w.exercises;
    }

    /**
     * The collection part of `editWorkout`: the workouts with the id are
     * filtered out as in `RemoveWorkoutsWithId`, and the collection is written.
     */
    method DropWorkout(id: string)
      modifies this`customWorkouts, this`savedWorkouts
      ensures customWorkouts == WithoutKey(old(customWorkouts), WorkoutId, id)
      ensures savedWorkouts == Saved(customWorkouts)
      ensures !HasKey(customWorkouts, WorkoutId, id)
      ensures HasKey(old(customWorkouts), WorkoutId, id) && UniqueKeys(old(customWorkouts), WorkoutId) ==>
        customWorkouts == RemoveAt(old(customWorkouts), IndexOfKey(old(customWorkouts), WorkoutId, id).value)
      ensures old(WellFormed()) ==> WellFormed()
      ensures old(InSync()) ==> InSync()
      ensures old(CurrentListed()) && !(currentWorkout.Some? && currentWorkout.value.id == id) ==> CurrentListed()
      ensures currentWorkout.Some? && currentWorkout.value.id == id ==> !CurrentListed()
    {
      RemoveWorkoutsWithId(id);
      savedWorkouts := Saved(customWorkouts);
    }

    /**
     * `editWorkout` as written: as `EditWorkout`, but the navigation to
     * the create page runs `initCreatePage`, which empties the selection
     * it has just filled. The workout is gone from the collection and its
     * exercises from the form.
     */
    method EditWorkoutAsWritten(id: string) returns (found: bool)
      modifies this`workoutName, this`selectedExercises, this`customWorkouts, this`savedWorkouts
      ensures found <==> HasKey(old(customWorkouts), WorkoutId, id)
      ensures !found ==> unchanged(this)
      ensures found ==>
        var w := old(customWorkouts)[IndexOfKey(old(customWorkouts), WorkoutId, id).value];
        && workoutName == w.name && selectedExercises == []
        && customWorkouts == WithoutKey(old(customWorkouts), WorkoutId, id)
        && savedWorkouts == Saved(customWorkouts)
      ensures !HasKey(customWorkouts, WorkoutId, id)
      ensures old(WellFormed()) ==> WellFormed()
      ensures old(InSync()) ==> InSync()
    {
      found := EditWorkout(id);
      if found {
        InitCreatePage();
      }
    }

    /**
     * `deleteWorkout`, confirmed: every workout with the id goes, and the
     * current workout is cleared (with its key) exactly when it has the id.
     */
    method DeleteWorkout(id: string)
      modifies this`customWorkouts, this`savedWorkouts, this`currentWorkout, this`savedCurrent
      ensures customWorkouts == WithoutKey(old(customWorkouts), WorkoutId, id)
      ensures savedWorkouts == Saved(customWorkouts)
      ensures !HasKey(customWorkouts, WorkoutId, id)
      ensures !HasKey(old(customWorkouts), WorkoutId, id) ==> customWorkouts == old(customWorkouts)
      ensures HasKey(old(customWorkouts), WorkoutId, id) && UniqueKeys(old(customWorkouts), WorkoutId) ==>
        customWorkouts == RemoveAt(old(customWorkouts), IndexOfKey(old(customWorkouts), WorkoutId, id).value)
      ensures var hit := old(currentWorkout).Some? && old(currentWorkout).value.id == id;
        && currentWorkout == (if hit then None else old(currentWorkout))
        && savedCurrent == (if hit then Absent else old(savedCurrent))
      ensures old(Valid()) ==> Valid()
      ensures old(WellFormed()) ==> WellFormed()
      ensures old(InSync()) ==> InSync()
      ensures old(CurrentListed()) ==> CurrentListed()
    {
      RemoveWorkoutsWithId(id);
      ForgetCurrentWithId(id);
      savedWorkouts := Saved(customWorkouts);
    }

    /** The current-workout part of `deleteWorkout`: a current workout with the id is cleared, and so is its key. */
    method ForgetCurrentWithId(id: string)
      modifies this`currentWorkout, this`savedCurrent
      ensures var hit := old(currentWorkout).Some? && old(currentWorkout).value.id == id;
        && currentWorkout == (if hit then None else old(currentWorkout))
        && savedCurrent == (if hit then Absent else old(savedCurrent))
      ensures old(Valid()) ==> Valid()
      ensures old(CurrentHolds(savedCurrent, currentWorkout)) ==> CurrentHolds(savedCurrent, currentWorkout)
    {
      if currentWorkout.Some? && currentWorkout.value.id == id {
        currentWorkout := None;
        savedCurrent := Absent;
      }
    }

    // -------------------------------------------------------------------
    // The training page
    // -------------------------------------------------------------------

    /**
     * `updateTrainPage`: with no trainable current workout it falls back
     * to the first of the collection (writing the key), or, with an empty
     * collection, opens the create page instead. Otherwise the cursor goes
     * to the first exercise and its rest is shown.
     */
    method UpdateTrainPage()
      requires RestTimer.Valid(TimerState())
      modifies this`currentWorkout, this`savedCurrent, this`currentExerciseIndex
      modifies this`remainingRestTime, this`totalRestTime, this`selectedExercises
      ensures old(Valid()) || HasExercises(old(currentWorkout)) || customWorkouts != [] ==> Valid()
      ensures currentWorkout == TrainTarget(old(currentWorkout), customWorkouts)
      ensures savedCurrent ==
        if HasExercises(old(currentWorkout)) || customWorkouts == [] then old(savedCurrent) else Saved(customWorkouts[0])
      ensures HasExercises(old(currentWorkout)) || customWorkouts != [] ==>
        && currentExerciseIndex == 0 && selectedExercises == old(selectedExercises)
        && TimerState() == RestTimer.Show(old(TimerState()), ShownRest(currentWorkout, 0))
      ensures !HasExercises(old(currentWorkout)) && customWorkouts == [] ==>
        && currentExerciseIndex == old(currentExerciseIndex) && selectedExercises == []
        && TimerState() == old(TimerState())
      ensures old(WellFormed()) ==> WellFormed()
      ensures old(InSync()) ==> InSync()
      ensures old(CurrentListed()) ==> CurrentListed()
    {
      if !HasExercises(currentWorkout) {
        if |customWorkouts| > 0 {
          currentWorkout := Some(customWorkouts[0]);
          savedCurrent := Saved(customWorkouts[0]);
          assert HasKey(customWorkouts, WorkoutId, customWorkouts[0].id);
        } else {
          InitCreatePage();
          return;
        }
      }
      currentExerciseIndex := 0;
      UpdateCurrentExercise();
    }

    /** `updateCurrentExercise`: the rest of the exercise under the cursor, when it names one, becomes the full and remaining rest. */
    method UpdateCurrentExercise()
      requires RestTimer.Valid(TimerState())
      modifies this`remainingRestTime, this`totalRestTime
      ensures RestTimer.Valid(TimerState())
      ensures TimerState() == RestTimer.Show(old(TimerState()), ShownRest(currentWorkout, currentExerciseIndex))
    {
      var e := ExerciseAt(currentWorkout, currentExerciseIndex);
      if e.Some? {
        var seconds := RestSeconds(e.value.rest);
        if seconds.Some? {
          totalRestTime := seconds.value;
          remainingRestTime := totalRestTime;
        }
      }
    }

    /** `prevExercise`: one step back, never before the first exercise. */
    method PrevExercise()
      requires Valid()
      modifies this`currentExerciseIndex, this`remainingRestTime, this`totalRestTime
      ensures Valid()
      ensures var moved := old(currentWorkout).Some? && old(currentExerciseIndex) > 0;
        && currentExerciseIndex == (if moved then old(currentExerciseIndex) - 1 else old(currentExerciseIndex))
        && TimerState() == (if moved then RestTimer.Show(old(TimerState()), ShownRest(currentWorkout, currentExerciseIndex)) else old(TimerState()))
      ensures HasExercises(currentWorkout) ==> currentExerciseIndex < |currentWorkout.value.exercises|
    {
      if currentWorkout.None? {
        return;
      }
      if currentExerciseIndex > 0 {
        currentExerciseIndex := currentExerciseIndex - 1;
        UpdateCurrentExercise();
      }
    }

    /** `nextExercise`: one step on, never past the last exercise. */
    method NextExercise()
      requires Valid()
      modifies this`currentExerciseIndex, this`remainingRestTime, this`totalRestTime
      ensures Valid()
      ensures var moved := old(currentWorkout).Some? && old(currentExerciseIndex) + 1 < |old(currentWorkout).value.exercises|;
        && currentExerciseIndex == (if moved then old(currentExerciseIndex) + 1 else old(currentExerciseIndex))
        && TimerState() == (if moved then RestTimer.Show(old(TimerState()), ShownRest(currentWorkout, currentExerciseIndex)) else old(TimerState()))
      ensures HasExercises(currentWorkout) ==> currentExerciseIndex < |currentWorkout.value.exercises|
    {
      if currentWorkout.None? {
        return;
      }
      if currentExerciseIndex < |currentWorkout.value.exercises| - 1 {
        currentExerciseIndex := currentExerciseIndex + 1;
        UpdateCurrentExercise();
      }
    }

    /**
     * A click on the carousel indicator of exercise `i` (the indicators
     * are drawn for the current workout's exercises): moving to another
     * exercise shows it as `updateCurrentExercise` does; clicking the
     * current one changes nothing.
     */
    method GoToExercise(i: nat)
      requires Valid()
      requires currentWorkout.Some? && i < |currentWorkout.value.exercises|
      modifies this`currentExerciseIndex, this`remainingRestTime, this`totalRestTime
      ensures Valid()
      ensures currentExerciseIndex == i
      ensures TimerState() ==
        if i != old(currentExerciseIndex) then RestTimer.Show(old(TimerState()), ShownRest(currentWorkout, i)) else old(TimerState())
    {
      if i != currentExerciseIndex {
        currentExerciseIndex := i;
        UpdateCurrentExercise();
      }
    }

    /** The favorites insert of `completeExercise`: a copy in front unless one with its id is there, then written. */
    method InsertFavorite(e: Exercise)
      modifies this`favoriteExercises, this`savedFavorites
      ensures favoriteExercises == AddFavorite(old(favoriteExercises), e)
      ensures savedFavorites == if HasKey(old(favoriteExercises), ExerciseId, e.id) then old(savedFavorites) else Saved(favoriteExercises)
      ensures old(WellFormed()) ==> WellFormed()
      ensures old(InSync()) ==> InSync()
    {
      AddFavoriteProperties(favoriteExercises, e);
      if !HasKey(favoriteExercises, ExerciseId, e.id) {
        favoriteExercises := [e] + favoriteExercises;
        savedFavorites := Saved(favoriteExercises);
      }
    }

    /**
     * `completeExercise`: without an exercise under the cursor nothing
     * changes. Otherwise the exercise is added to the favorites as in
     * `InsertFavorite`, and the cursor moves on as in `NextExercise`.
     */
    method CompleteExercise() returns (done: bool)
      requires Valid()
      modifies this`favoriteExercises, this`savedFavorites
      modifies this`currentExerciseIndex, this`remainingRestTime, this`totalRestTime
      ensures Valid()
      ensures done <==> ExerciseAt(currentWorkout, old(currentExerciseIndex)).Some?
      ensures !done ==> unchanged(this)
      ensures done ==>
        var e := ExerciseAt(currentWorkout, old(currentExerciseIndex)).value;
        && favoriteExercises == AddFavorite(old(favoriteExercises), e)
        && savedFavorites == (if HasKey(old(favoriteExercises), ExerciseId, e.id) then old(savedFavorites) else Saved(favoriteExercises))
      ensures done ==>
        var moved := old(currentExerciseIndex) + 1 < |currentWorkout.value.exercises|;
        && currentExerciseIndex == (if moved then old(currentExerciseIndex) + 1 else old(currentExerciseIndex))
        && TimerState() == (if moved then RestTimer.Show(old(TimerState()), ShownRest(currentWorkout, currentExerciseIndex)) else old(TimerState()))
      ensures old(WellFormed()) ==> WellFormed()
      ensures old(InSync()) ==> InSync()
    {
      var e := ExerciseAt(currentWorkout, currentExerciseIndex);
      if e.None? {
        return false;
      }
      done := true;
      InsertFavorite(e.value);
      NextExercise();
    }

    // -------------------------------------------------------------------
    // The rest timer
    // -------------------------------------------------------------------

    /**
     * `startRestTimer`: with an exercise under the cursor and no rest
     * active, a rest of its rest seconds (60 when its text holds no digit)
     * starts; otherwise nothing changes.
     */
    method StartRestTimer()
      requires Valid()
      modifies this`remainingRestTime, this`totalRestTime, this`isRestTimerActive, this`timerRunning
      ensures Valid()
      ensures TimerState() ==
        match ExerciseAt(currentWorkout, currentExerciseIndex)
        case Some(e) => RestTimer.Start(old(TimerState()), StartRestSeconds(e.rest))
        case None => old(TimerState())
    {
      var e := ExerciseAt(currentWorkout, currentExerciseIndex);
      if e.None? || isRestTimerActive {
        return;
      }
      totalRestTime := StartRestSeconds(e.value.rest);
      remainingRestTime := totalRestTime;
      isRestTimerActive := true;
      timerRunning := true;
    }

    /** One firing of the running interval. */
    method Tick()
      requires Valid() && timerRunning
      modifies this`remainingRestTime, this`isRestTimerActive, this`timerRunning
      ensures Valid()
      ensures TimerState() == RestTimer.Tick(old(TimerState()))
    {
      if remainingRestTime > 0 {
        remainingRestTime := remainingRestTime - 1;
      } else {
        timerRunning := false;
        isRestTimerActive := false;
      }
    }

    /** `toggleTimer`: pause a running countdown, resume a paused one. */
    method ToggleTimer()
      requires Valid()
      modifies this`timerRunning
      ensures Valid()
      ensures TimerState() == RestTimer.Toggle(old(TimerState()))
    {
      timerRunning := !timerRunning;
    }

    /** `resetTimer`: back to the full rest; a running countdown keeps running. */
    method ResetTimer()
      requires Valid()
      modifies this`remainingRestTime
      ensures Valid()
      ensures TimerState() == RestTimer.Reset(old(TimerState()))
    {
      remainingRestTime := totalRestTime;
    }

    /** `skipTimer`: no rest left, countdown stopped, rest over. */
    method SkipTimer()
      requires Valid()
      modifies this`remainingRestTime, this`isRestTimerActive, this`timerRunning
      ensures Valid()
      ensures TimerState() == RestTimer.Skip(old(TimerState()))
    {
      remainingRestTime := 0;
      timerRunning := false;
      isRestTimerActive := false;
    }

    // -------------------------------------------------------------------
    // The favorites page
    // -------------------------------------------------------------------

    /**
     * `addFavoriteToWorkout`, as the create page is evidently meant to
     * open: the favorite with the id, if any, is appended to the selection
     * unless an exercise with its id is already selected.
     */
    method AddFavoriteToWorkout(exerciseId: string) returns (added: bool)
      modifies this`selectedExercises
      ensures added <==> HasKey(favoriteExercises, ExerciseId, exerciseId) && !HasKey(old(selectedExercises), ExerciseId, exerciseId)
      ensures !HasKey(favoriteExercises, ExerciseId, exerciseId) ==> selectedExercises == old(selectedExercises)
      ensures HasKey(favoriteExercises, ExerciseId, exerciseId) ==>
        selectedExercises == AddToSelection(old(selectedExercises), favoriteExercises[IndexOfKey(favoriteExercises, ExerciseId, exerciseId).value])
      ensures old(WellFormed()) ==> WellFormed()
    {
      var m := IndexOfKey(favoriteExercises, ExerciseId, exerciseId);
      if m.None? {
        return false;
      }
      var exercise := favoriteExercises[m.value];
      AddToSelectionProperties(selectedExercises, exercise);
      added := !HasKey(selectedExercises, ExerciseId, exerciseId);
      if added {
        selectedExercises := selectedExercises + [exercise];
      }
    }

    /**
     * `addFavoriteToWorkout` as written: after appending, the navigation
     * to the create page runs `initCreatePage`, which empties the
     * selection, so the whole selection is lost.
     */
    method AddFavoriteToWorkoutAsWritten(exerciseId: string) returns (added: bool)
      modifies this`selectedExercises
      ensures added <==> HasKey(favoriteExercises, ExerciseId, exerciseId) && !HasKey(old(selectedExercises), ExerciseId, exerciseId)
      ensures selectedExercises == if added then [] else old(selectedExercises)
      ensures old(WellFormed()) ==> WellFormed()
    {
      added := AddFavoriteToWorkout(exerciseId);
      if added {
        InitCreatePage();
      }
    }

    /** `clearFavorites`, confirmed: a non-empty list is emptied and its key removed. */
    method ClearFavorites()
      modifies this`favoriteExercises, this`savedFavorites
      ensures old(favoriteExercises) == [] ==> unchanged(this)
      ensures old(favoriteExercises) != [] ==> favoriteExercises == [] && savedFavorites == Absent
      ensures old(WellFormed()) ==> WellFormed()
      ensures old(InSync()) ==> InSync()
    {
      if |favoriteExercises| == 0 {
        return;
      }
      favoriteExercises := [];
      savedFavorites := Absent;
    }
  }
}
