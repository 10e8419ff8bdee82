# NextTreino, modelled in Dafny

NextTreino is a single-page workout planner. The user picks exercises
from a catalog and saves them as named workouts. A workout is trained one
exercise at a time, with a rest countdown between exercises (the rest
length is read from the exercise's free-text `rest` field). Completed
exercises are collected as favorites. The collection, the favorites and
the current workout live in three `localStorage` keys.

All of the app's logic is in `script.js`. This project models the state
core of that file: its module-level variables and handlers, and the pure
string and arithmetic helpers they use.

- `wrappers.dfy` (`Wrappers`): `Option`, for `null` and "not found".
- `js_string.dfy` (`JsString`): the JavaScript string operations the
  handlers rely on, `startsWith`, `includes`, `trim` and `toLowerCase`.
- `image_path.dfy` (`ImagePath`): the image path normaliser
  `fixImagePath`, and the `loadImage`/`handleImageError` fallback on a
  class `Img` with the two fields of an `<img>` element those functions
  use.
- `rest_time.dfy` (`RestTime`): how `rest.match(/(\d+)/)` and `parseInt`
  turn a rest text into seconds, and the zero-padded decimal text of the
  timer display.
- `rest_timer.dfy` (`RestTimer`): the rest timer as a state machine over
  `remainingRestTime`, `totalRestTime`, `isRestTimerActive`, and whether
  `restTimerInterval` is set.
- `sequences.dfy` (`Sequences`): the array operations the handlers use,
  over a key function: `findIndex`, `some`, `filter` and `splice(i, 1)`.
- `records.dfy` (`Records`): the exercise and workout records, with the
  pure list updates on the selection and on the favorites.
- `app.dfy` (`NextTreino`): class `App`. Its fields are the module-level
  variables except `currentCategory` (the catalog filter, which only the
  catalog pages use; see Left out), the value of the name input, and what
  each of the three storage keys holds. Each handler is a method that states the whole new
  state. Handlers that navigate also run the state part of the page they
  open: opening the create page (`initCreatePage`) empties the selection,
  and opening the training page runs `updateTrainPage`.
- `findings.dfy` (`Findings`): concrete runs that show the two defects
  listed under Findings.

These invariants are proved to be preserved across the handlers, with
one exception:
- `App.Valid`: the countdown never exceeds the full rest, and the cursor
  points at an exercise of the current workout (or is 0).
- `App.WellFormed`: ids are unique in each list and within each workout.
- `App.InSync`: storage holds exactly the lists and the current workout,
  so a reload restores them (`ReloadRestores`). `loadWorkout` does not
  keep it (`LoadWorkout` does not promise it): the current-workout key
  keeps the copy without the `lastUsed` stamp, as described below.

Where the code and its evident intent disagree, the model follows the
code:
- `editWorkout` removes the workout being edited from the collection and
  from storage (script.js:785-786). Saving the form afterwards always
  mints a new id (script.js:656), so ids do not survive an edit, and
  leaving the form loses the workout.
- `editWorkout` leaves `currentWorkout` alone. Editing the current workout
  therefore leaves it pointing outside the collection (`EditWorkout`
  states this).
- `loadWorkout` writes the current-workout key before stamping
  `lastUsed` (script.js:765-767). The key keeps the unstamped workout
  while the collection's copy and `currentWorkout` carry the stamp.

## Model

| member | source | states |
|---|---|---|
| ImagePath.FixImagePath | script.js:2-23 | the result is never empty and always starts with `/assets/` or `http`; it is the placeholder, the input itself, or `/assets/` followed by the input with at most one leading slash removed |
| ImagePath.FixImagePathKeepsResolved | script.js:8-10 | a non-empty path that already starts with `/assets/` or `http` comes back unchanged |
| ImagePath.IsResolved | script.js:8 | definition of a path that is already complete; what it promises is proved by `FixImagePath` and `FixImagePathKeepsResolved` |
| ImagePath.LooksLikeGif | script.js:13 | definition of a path that names a GIF; what it promises is proved by `FixImagePathFallsBack` and `FixImagePathKeepsGif` |
| ImagePath.StripLeadingSlash | script.js:16 | definition of `replace(/^\/?/, '')`; what it promises is proved by `FixImagePath` and `FixImagePathKeepsGif` |
| ImagePath.FixImagePathIdempotent | script.js:2-23 | normalising an already normalised path changes nothing |
| ImagePath.FixImagePathFallsBack | script.js:2-23 | a missing, empty, or unrecognised path (neither resolved nor naming a GIF) gives `/assets/default-exercise.gif` |
| ImagePath.FixImagePathKeepsGif | script.js:13-18 | an unresolved GIF path is moved under `/assets/` with at most its leading slash dropped, and it still names a GIF |
| ImagePath.LoadImage | script.js:80-94 | the element shows the normalised path and has the fallback handler attached |
| ImagePath.HandleImageError | script.js:26-34 | the handler detaches itself and the element shows the placeholder |
| ImagePath.ImageLoadFailed | script.js:26-34 | a failure (the handler `loadImage` attaches at script.js:91-93) switches to the placeholder only while the handler is attached, so the fallback runs at most once |
| JsString.StartsWith | script.js:8 | definition of `startsWith`; what it promises is proved by `FixImagePath` and `FixImagePathKeepsResolved` |
| JsString.Includes | script.js:13 | definition of `includes`; what it promises is proved by `FixImagePathKeepsGif` |
| JsString.Trim | script.js:616 | definition of `trim`; what it promises is proved by `TrimSplits`, `TrimEmptyIffBlank` and `TrimIdempotent` |
| JsString.TrimStart | script.js:616 | the result is a suffix of the input and does not start with whitespace |
| JsString.TrimStartDropsWhitespace | script.js:616 | everything removed in front is whitespace |
| JsString.TrimEnd | script.js:616 | the result is a prefix of the input and does not end with whitespace |
| JsString.TrimEndDropsWhitespace | script.js:616 | everything removed at the end is whitespace |
| JsString.TrimSplits | script.js:616 | the trimmed name is a slice of the input, with only whitespace before and after it, and it neither starts nor ends with whitespace |
| JsString.TrimEmptyIffBlank | script.js:618 | the trimmed name is empty exactly when the input holds only whitespace |
| JsString.TrimIdempotent | script.js:616 | trimming twice gives the same as trimming once |
| JsString.LowerChar | script.js:635-637 | the lower-case form is never an upper-case letter, and other characters stay the same |
| JsString.ToLower | script.js:635-637 | lower-casing keeps the length and maps each character by `LowerChar` |
| JsString.ToLowerIdempotent | script.js:635-637 | lower-casing twice gives the same as lower-casing once, so the name comparison is stable |
| RestTime.FirstDigitIndex | script.js:927 | the position found lies inside the text |
| RestTime.FirstDigitIndexSpec | script.js:927 | the position found holds a digit and no earlier position does; no position is found only when the text has no digit |
| RestTime.DigitPrefix | script.js:927 | the greedy run is no longer than the text |
| RestTime.DigitPrefixSpec | script.js:927 | the greedy run is a prefix of digits that is not followed by a digit |
| RestTime.FirstDigitRun | script.js:927 | definition of `rest.match(/(\d+)/)[1]`; what it promises is proved by `FirstDigitRunSpec` |
| RestTime.DecimalValue | script.js:929 | definition of `parseInt` on a digit run; what it promises is proved by `DecimalRoundTrip` |
| RestTime.RestSeconds | script.js:927-929 | definition of the seconds `updateCurrentExercise` reads; what it promises is proved by `RestSecondsExamples` and `NextTreino.App.UpdateCurrentExercise` |
| RestTime.StartRestSeconds | script.js:998-1004 | definition of the seconds `startRestTimer` reads, 60 without digits; what it promises is proved by `RestSecondsExamples` and `NextTreino.App.StartRestTimer` |
| RestTime.FirstDigitRunSpec | script.js:927-929 | the match is absent exactly when the rest text holds no digit; otherwise it is a non-empty run of digits and the first maximal such run |
| RestTime.RestSecondsExamples | script.js:998-1004 | the catalog's `"60-90s"` gives 60 and its `"90s"` gives 90 (script.js:46, 58), and a text without digits gives nothing, so starting a rest uses 60 |
| RestTime.ToDecimal | script.js:1049-1050 | the decimal text is non-empty, all digits, and one or two characters long below 10 and 100 |
| RestTime.DecimalRoundTrip | script.js:1049-1050 | reading back the decimal text of a number gives the number |
| RestTime.PadStart2 | script.js:1049-1050 | the text is padded with leading zeros to at least two characters and ends with the input |
| RestTime.LeadingZero | script.js:1049-1050 | a leading zero does not change the value of a digit string |
| RestTime.PaddedValue | script.js:1049-1050 | padding does not change the value of a digit string |
| RestTimer.Toggle | script.js:1053-1064 | definition of pausing or resuming; what it promises is proved by `ToggleTwice` and `TransitionsKeepValid` |
| RestTimer.Reset | script.js:1066-1074 | definition of a reset to the full rest; what it promises is proved by `TransitionsKeepValid` and `NextTreino.App.ResetTimer` |
| RestTimer.Skip | script.js:1076-1087 | definition of skipping the rest; what it promises is proved by `SkipEndsRest` |
| RestTimer.Start | script.js:986-1014 | definition of starting a rest; what it promises is proved by `SkipEndsRest`, `TransitionsKeepValid` and `NextTreino.App.StartRestTimer` |
| RestTimer.Show | script.js:927-932 | definition of showing an exercise's rest; what it promises is proved by `TransitionsKeepValid` and `NextTreino.App.UpdateCurrentExercise` |
| RestTimer.Tick | script.js:1029-1038 | a tick counts down by one while above zero and otherwise stays at zero; it keeps the full rest and keeps the countdown within it |
| RestTimer.TransitionsKeepValid | script.js:1029-1087 | tick, toggle, reset, skip, start and showing an exercise all keep the countdown within the full rest |
| RestTimer.CountsDownToZero | script.js:1029-1038 | a running rest shows zero after `remaining` ticks, and the next tick stops the interval and ends the rest |
| RestTimer.SkipEndsRest | script.js:1076-1087 | after a skip the interval never fires, a second skip changes nothing, and the next start begins a fresh rest |
| RestTimer.ToggleTwice | script.js:1053-1064 | pausing and then resuming returns to the same timer state |
| RestTimer.Clock | script.js:1043-1044 | minutes times 60 plus seconds is the remaining time, and the seconds are below 60 |
| RestTimer.PaddedField | script.js:1049-1050 | one padded field has at least two digits, exactly two below 100, and reads back as the number |
| RestTimer.ClockText | script.js:1042-1050 | both texts are all digits, the seconds text has exactly two characters, the minutes text at least two, and their values give back the remaining time |
| Sequences.IndexOfKey | script.js:522 | `findIndex`/`find`: the position found has the key and no earlier one does; nothing is found exactly when no element has the key |
| Sequences.RemoveAt | script.js:525 | `splice(i, 1)` leaves one element fewer, with the elements before `i` kept and those after it shifted down by one |
| Sequences.WithoutKey | script.js:800 | the filtered list is no longer than the original and holds no element with the key |
| Sequences.WithoutKeyElements | script.js:800 | the filtered list has the same members as the input minus those with the key: every kept element comes from the input with another key, and every such element is kept |
| Sequences.WithoutKeyHasKey | script.js:800 | after filtering out a key, another key is present exactly when it was present before |
| Sequences.WithoutAbsentKey | script.js:800 | filtering out a key that no element has changes nothing |
| Sequences.WithoutUniqueKey | script.js:644 | with unique keys, filtering out a present key removes exactly the element `findIndex` finds |
| Sequences.WithoutKeyKeepsUnique | script.js:785 | filtering keeps keys unique |
| Sequences.AppendKeepsUnique | script.js:527 | appending an element with a new key keeps keys unique |
| Sequences.PrependKeepsUnique | script.js:666 | putting an element with a new key in front keeps keys unique |
| Sequences.RemoveAtUnique | script.js:525 | removing an element keeps keys unique, removes its key, and keeps every other key |
| Records.Toggle | script.js:521-528 | definition of the selection toggle; what it promises is proved by `ToggleTwice` and `ToggleUnique` |
| Records.AddToSelection | script.js:1150-1153 | definition of adding a favorite to the selection; what it promises is proved by `AddToSelectionProperties` |
| Records.AddFavorite | script.js:963-966 | definition of the favorites insert; what it promises is proved by `AddFavoriteProperties` |
| Records.ToggleTwice | script.js:521-528 | toggling an unselected exercise appends it, and toggling it again restores the selection |
| Records.ToggleUnique | script.js:521-528 | on a selection with unique ids, a toggle keeps ids unique, flips whether the exercise is selected, and leaves every other id as it was |
| Records.AddToSelectionProperties | script.js:1150-1153 | adding a favorite to the selection makes it selected, adding it twice is the same as once, and unique ids stay unique |
| Records.AddFavoriteProperties | script.js:963-966 | a completed exercise ends up among the favorites, in front if it was new; completing it again changes nothing, and ids stay unique |
| Records.FilterByIdRemovesOne | script.js:635-644 | with unique ids, filtering out the id of the first same-named workout removes exactly that workout |
| NextTreino.LoadSavedData | script.js:121-148 | definition of what a page load reads from the three keys; what it promises is proved by `CorruptLoadsAsEmpty`, `LoadStoreRoundTrip` and `ReloadRestores` |
| NextTreino.CorruptLoadsAsEmpty | script.js:143-147 | a key that fails to parse makes the load the same as a first visit: empty lists and no current workout |
| NextTreino.LoadStoreRoundTrip | script.js:121-148 | reading back the three keys as the handlers write them restores the state exactly |
| NextTreino.ReloadRestores | script.js:121-148 | the keys hold a state exactly when none fails to parse and reading them restores that state |
| NextTreino.ExerciseAt | script.js:905 | definition of the exercise under the cursor; what it promises is proved by `App.CompleteExercise` and `App.StartRestTimer` |
| NextTreino.TrainTarget | script.js:824-835 | definition of the workout the training page shows; what it promises is proved by `TrainTargetProperties` |
| NextTreino.TrainTargetProperties | script.js:824-835 | a current workout with exercises is kept; with a non-empty collection there is always a workout, either the current one or a listed one; there is something to train exactly when the current workout or the first listed one has exercises; opening the page twice is the same as once |
| NextTreino.CheckSave | script.js:612-652 | a same-name verdict points inside the collection |
| NextTreino.CheckSaveSpec | script.js:616-640 | a blank name, a name under 3 characters, and an empty selection are rejected, in that order and under exactly those conditions; a valid request is free only when no workout has the same lower-cased name, and otherwise names the first such workout |
| NextTreino.SaveKeepsNamesUnique | script.js:635-651 | on a collection with unique ids and unique lower-cased names, a save that passes the checks (directly, or after the replace filters out the same-named workout) puts the new workout in front of a collection where lower-cased names are still unique |
| NextTreino.Kept | script.js:644 | with no name collision the collection is kept; on a collision with unique ids, exactly the matching workout is removed |
| NextTreino.App.constructor | script.js:121-148 | the initial globals of script.js:68-77, the lists and current workout as `LoadSavedData` restores them, and storage in sync unless a key fails to parse |
| NextTreino.App.InitCreatePage | script.js:427-436 | opening the create page empties the selection |
| NextTreino.App.ToggleExerciseSelection | script.js:521-532 | the selection becomes `Toggle` of the old one; with unique ids it stays duplicate-free and the exercise's selected state flips |
| NextTreino.App.RemoveSelectedAt | script.js:574-580 | the item at the position is removed from the selection, nothing changes out of range, and ids stay unique |
| NextTreino.App.CancelCreation | script.js:595-610 | a confirmed cancel clears a non-empty selection and the name input; with nothing selected nothing changes |
| NextTreino.App.StoreNewWorkout | script.js:654-677 | the new workout goes in front of the collection and becomes current, both are written, the form is cleared, and the current workout is listed |
| NextTreino.App.FinishSavingWorkout | script.js:654-687 | the new workout holds a copy of the selection, with no `lastUsed` and not a favorite; it goes in front of the old collection and becomes current; the cursor is on its first exercise, whose rest is shown; uniqueness (for a fresh id) and storage sync are kept |
| NextTreino.App.SaveWorkout | script.js:612-652 | the verdict is `CheckSave` on the trimmed name; a rejected request or a declined replace changes nothing; otherwise the new workout goes in front of the collection minus the same-named workout, the state is that of `FinishSavingWorkout`, and the invariants are kept; names that were unique ignoring case stay unique after a completed save |
| NextTreino.App.RemoveWorkoutsWithId | script.js:800 | the workouts (the same filter as script.js:644 and 785) with the id are filtered out; an absent id changes nothing; with unique ids exactly the one found goes; every other id stays present |
| NextTreino.App.MarkUsed | script.js:764-768 | the workout becomes current with `lastUsed` stamped, in the collection and in `currentWorkout`; no other workout changes; the current key receives the unstamped workout |
| NextTreino.App.LoadWorkout | script.js:757-772 | an unknown id changes nothing; otherwise only the first workout with the id is stamped, in place; the training page opens at index 0 on `TrainTarget` of the stamped workout, which is the stamped workout when it has exercises and otherwise the first listed workout; the current key receives the unstamped workout, or the first listed one on that fallback |
| NextTreino.App.EditWorkout | script.js:774-793 | an unknown id changes nothing; otherwise the form takes the workout's name and exercises, and no workout with the id remains in the collection or in storage; a current workout with that id is left outside the collection |
| NextTreino.App.FillForm | script.js:781-783 | the name input and the selection take the workout's name and exercises; ids stay unique when the workout is a listed one |
| NextTreino.App.DropWorkout | script.js:785-786 | the workouts with the id are filtered out and the collection is written; storage stays in sync; a current workout with that id is left outside the collection, any other stays listed |
| NextTreino.App.EditWorkoutAsWritten | script.js:774-793 | as `EditWorkout`, except that the selection ends up empty; unique ids and storage sync are kept |
| NextTreino.App.DeleteWorkout | script.js:800-805 | every workout with the id is filtered out, an absent id leaves the collection unchanged, and the current workout (with its key) is cleared exactly when its id matched |
| NextTreino.App.ForgetCurrentWithId | script.js:802-805 | the current workout and its key are cleared exactly when its id matches |
| NextTreino.App.UpdateTrainPage | script.js:821-848 | the current workout becomes `TrainTarget`, whose key is written on the fallback; when the current workout has exercises or the collection is non-empty, the cursor goes to 0 and the rest at index 0 is shown (there may be no exercise there, when the fallback workout is itself empty, as in the source); only when the current workout has no exercises and the collection is empty does the create page open, emptying the selection and leaving the cursor and timer alone |
| NextTreino.App.UpdateCurrentExercise | script.js:904-933 | the rest of the exercise under the cursor, when it names seconds, becomes the full and the remaining rest |
| NextTreino.App.PrevExercise | script.js:935-943 | the cursor moves back by one unless it is at the first exercise, and stays within the exercises |
| NextTreino.App.NextExercise | script.js:945-953 | the cursor moves on by one unless it is at the last exercise, and stays within the exercises |
| NextTreino.App.GoToExercise | script.js:878-884 | a click on the indicator of an exercise of the current workout puts the cursor on it; moving to another exercise shows its rest, and clicking the current one changes nothing |
| NextTreino.App.InsertFavorite | script.js:963-967 | the exercise is put in front of the favorites (and written) unless one with its id is there; ids stay unique |
| NextTreino.App.CompleteExercise | script.js:955-984 | without an exercise under the cursor nothing changes; otherwise it is added to the favorites and the cursor moves on as in `NextExercise` |
| NextTreino.App.StartRestTimer | script.js:986-1014 | with an exercise under the cursor and no rest active, a running rest of its rest seconds (60 without digits) starts; otherwise nothing changes |
| NextTreino.App.Tick | script.js:1026-1040 | one firing of the interval is `RestTimer.Tick` |
| NextTreino.App.ToggleTimer | script.js:1053-1064 | the interval is cleared when set and started otherwise |
| NextTreino.App.ResetTimer | script.js:1066-1074 | the countdown goes back to the full rest, and whether it runs is unchanged |
| NextTreino.App.SkipTimer | script.js:1076-1087 | no rest is left, the interval is cleared and the rest is over |
| NextTreino.App.AddFavoriteToWorkout | script.js:1146-1161 | a favorite is added exactly when it exists and its id is not yet selected; an unknown favorite changes nothing; ids stay unique |
| NextTreino.App.AddFavoriteToWorkoutAsWritten | script.js:1146-1161 | when the favorite is added, the navigation leaves the selection empty; unique ids are kept |
| NextTreino.App.ClearFavorites | script.js:1163-1176 | a confirmed clear empties a non-empty favorites list and removes its key; an empty list is left alone |
| Findings.EditScenario | script.js:774-793 | editing the only workout (with `initCreatePage` at script.js:430 emptying the selection): as written, both the collection and the selection end up empty; corrected, the selection holds the workout's exercise |
| Findings.AddFavoriteScenario | script.js:1146-1161 | adding a favorite to a one-item selection (with `initCreatePage` at script.js:430 emptying the selection): as written the selection ends up empty; corrected, it holds both exercises |

## Left out

- Rendering, navigation between pages, the menu, messages, the character counter, the carousel's drawing and scrolling, and the catalog pages (with their filter `currentCategory`, script.js:77) are presentation only. They are not modelled, except where they change state (`initCreatePage`, `updateTrainPage`, and the indicator click as `GoToExercise`).
- Event-listener setup, the confirm modal and the keyboard handler are not modelled. A confirmed callback is a direct method, and `SaveWorkout` takes the answer to its replace prompt as `replaceConfirmed`.
- `setInterval` and `setTimeout` are not modelled. One firing of the interval is the method `Tick`, and `timerRunning` stands for `restTimerInterval !== null`. The rest that `completeExercise` starts 500 ms later (script.js:976) is left to the caller, who can call `StartRestTimer`.
- `Date.now()` and `toISOString()` are not modelled: new ids and timestamps are parameters. Freshness of a new id appears as a hypothesis of the uniqueness postconditions, not as a precondition.
- `localStorage` and JSON are not modelled as text. Each key is a field holding what was last written to it (`Slot`), with `Corrupt` for text that fails to parse. `JSON.stringify` copies are taken as equal values.
- The storage-full failure in `finishSavingWorkout` (script.js:682-685) is not modelled. Writes are taken to succeed.
- Tests for DOM elements that are missing are not modelled (for example, `saveWorkout` returning early when there is no name input). The elements are taken to exist.
- In the training handlers, null workouts and missing `exercises` arrays are modelled as `None`. The `!currentWorkout.exercises` tests (script.js:824, 936, 946) are left out because a workout record always has its list.
- Browser image loading is not modelled: an `Img` has only `src` and whether a handler is attached.
- Console logging is not modelled.
- `parseInt` is modelled as exact decimal reading (`DecimalValue`). A JavaScript number is a double, so a digit run above 2^53 would be rounded; the model does not capture that rounding.
- String lengths count code points, not UTF-16 units; this differs only for characters outside the Basic Multilingual Plane.
- JsString.LowerChar, JsString.ToLower: lower only ASCII and Latin-1 capitals (U+00C0 to U+00DE, except U+00D7), not the full Unicode case mapping of `toLowerCase`, which also lowers capitals such as U+0100 and can lengthen the text (U+0130 becomes two characters).
- NextTreino.App.SaveWorkout: unique lower-cased names are stated as kept under the hypothesis that they held before. They are not a preserved invariant of every handler, and a collection read from storage with two same-named workouts keeps the later one after a replace.
- NextTreino.App.WellFormed: unique ids are a preserved invariant, not something storage guarantees. Each preservation is stated under the hypothesis that it held before.

## Findings

| source | as written | input that shows it | evidently intended | confidence | as-written member | corrected member |
|---|---|---|---|---|---|---|
| script.js:784-790 | `editWorkout` copies the workout's exercises into the selection and then navigates to the create page, whose `initCreatePage` (script.js:430) empties the selection; the workout has already been filtered out of the collection and storage | a collection holding one workout with one exercise, and `editWorkout` on its id: the collection and the selection both end up empty | the create page opens with the workout's exercises selected | high, not executed | NextTreino.App.EditWorkoutAsWritten | NextTreino.App.EditWorkout |
| script.js:1153-1157 | `addFavoriteToWorkout` appends the favorite to the selection and then navigates to the create page, whose `initCreatePage` empties the selection again | exercise `e` selected, favorite `f` with another id, and `addFavoriteToWorkout(f.id)`: the selection ends up empty instead of `[e, f]` | the selection keeps what it held, plus the favorite | high, not executed | NextTreino.App.AddFavoriteToWorkoutAsWritten | NextTreino.App.AddFavoriteToWorkout |
