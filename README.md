# E-Hub core, modelled in Dafny

E-Hub is an Android app, written in Kotlin, that gathers a few personal tools: a nonogram puzzle
game, a to-do tree, a to-buy list grouped by category, free-form notes, and the settings and
response cache of its HTTP client. This project models the sequential logic of those tools and
proves what it promises. Android views, the network and the clock are not modelled.

- **Nonogram engine** (`NonogramGame`). The game is a class over a solution grid and a player
  grid, both `array2<bool>`, with `array<seq<int>>` clues. The clues are the run-length encoding of
  a line, with `[0]` for an empty line. The model covers bounded generation with its acceptance
  test and its three fixed 5x5 fallback patterns, bounds-checked toggling, reset, line validation
  and the solved test.
- **Nonogram screen** (`NonogramScreen`). The row and column clue labels are proved to read back
  to the clues. The click, reset and new-game handlers re-validate every row and column and keep
  the highlights in step with the game.
- **Game timer** (`Timer`, `KotlinInt`). A running/paused state machine over a millisecond clock
  that is a parameter. It displays `HH:MM:SS` using Kotlin's truncating `/` and `%` and the 32-bit
  `toInt()`.
- **To-do screen** (`ToDoScreen`, `ToDoAdapter`):
  - local overrides laid over the server tasks;
  - the pre-order flattening of the selected root's tree into rows, honouring the collapsed set;
  - the seeding of the collapsed set;
  - keeping the selection across a refresh;
  - the header time;
  - the adapter's rows, view types and three-state checkbox cycle.
- **To-buy screen** (`ToBuyScreen`, `ToBuyActivityState`, `CategoryAccordion`):
  - the two sort-button cycles;
  - the year filter and its options;
  - the filter, group-by-category and sort pipeline with 32-bit price totals;
  - the accordion, in which at most one section is expanded.
- **List adapters** (`MutableLists`, `CategorySelection`, `LinkEdit`, `Photos`). These adapters
  edit, in place, lists they share with the screens that own them. Each list is a `MutableList`
  object, so the sharing is explicit.
- **Notes** (`NoteEditing`, `NotesScreen`):
  - the status rule of the note editor;
  - the selection of the notes an auto-save sends;
  - the deletion queue;
  - the blank note kept on top;
  - the order of fetched notes.
- **Cache and keys** (`Cache`, `ApiKeys`):
  - the response cache, whose entries expire lazily on read;
  - the cache key of a request;
  - the authorization header.
- **Settings** (`Prefs`, `ApiSettings`, `NextCloudSettings`). The preference file is a string
  map shared by reference. The model covers defaults, URL and endpoint normalisation and the
  "is configured" tests.

Shared helpers:

| module | what it models |
|---|---|
| `Opt` | Kotlin's nullable values |
| `Strings` | trimming, ASCII case mapping, case-insensitive search, `toIntOrNull`, `joinToString` and splitting |
| `Sorting` | Kotlin's `sortedBy` |
| `ToDoDto`, `ToBuyDto`, `NoteDto` | the data classes |

## Model

| member | source | states |
|---|---|---|
| NonogramGame.LeadRun | app/src/main/java/com/ericp/e_hub/nonogram/NonogramGame.kt:94-96 | the first `k` cells are filled and cell `k`, if any, is empty: `k` is the length of the leading group the counter builds |
| NonogramGame.RunsPositive | app/src/main/java/com/ericp/e_hub/nonogram/NonogramGame.kt:98-107 | a group is emitted only when its counter is above zero, so every run is at least 1 |
| NonogramGame.RunsSum | app/src/main/java/com/ericp/e_hub/nonogram/NonogramGame.kt:90-110 | the run lengths add up to the number of filled cells of the line; `Runs` models the counter loop |
| NonogramGame.RunsEmptyIff | app/src/main/java/com/ericp/e_hub/nonogram/NonogramGame.kt:105-109 | a line has no runs exactly when none of its cells is filled |
| NonogramGame.LineCluesShape | app/src/main/java/com/ericp/e_hub/nonogram/NonogramGame.kt:109 | the clue is `[0]` if and only if the line is all empty; otherwise every clue value is at least 1; `LineClues` models `calculateLineClues` |
| NonogramGame.LineCluesSum | app/src/main/java/com/ericp/e_hub/nonogram/NonogramGame.kt:90-110 | the clue values, the `[0]` sentinel included, add up to the number of filled cells |
| NonogramGame.RunsBound | app/src/main/java/com/ericp/e_hub/nonogram/NonogramGame.kt:90-110 | a line of n cells has at most (n + 1) / 2 runs, since runs are separated by empty cells |
| NonogramGame.LineCluesBound | app/src/main/java/com/ericp/e_hub/nonogram/NonogramGame.kt:90-110 | the clue of a non-empty line of n cells has between 1 and (n + 1) / 2 values |
| NonogramGame.RunsOfRender | app/src/main/java/com/ericp/e_hub/nonogram/NonogramGame.kt:90-110 | every sequence of positive run lengths is the clue of some line (its canonical rendering), of the expected length: the encoding loses nothing |
| NonogramGame.CalculateLineClues | app/src/main/java/com/ericp/e_hub/nonogram/NonogramGame.kt:90-110 | the counter loop over the line returns exactly the maximal runs of filled cells, or `[0]` for an all-empty line |
| NonogramGame.IsLineValid | app/src/main/java/com/ericp/e_hub/nonogram/NonogramGame.kt:136-143 | valid if and only if the line's clue equals the given clue: the `[0]` special case agrees with plain equality |
| NonogramGame.Column | app/src/main/java/com/ericp/e_hub/nonogram/NonogramGame.kt:85 | column j holds cell j of every row, top to bottom |
| NonogramGame.EmptyGrid | app/src/main/java/com/ericp/e_hub/nonogram/NonogramGame.kt:8-12 | an n-by-n board with every cell empty, as a new `BooleanArray` holds |
| NonogramGame.RowCluesOf | app/src/main/java/com/ericp/e_hub/nonogram/NonogramGame.kt:80-82 | one clue per row, the clue of that row |
| NonogramGame.ColCluesOf | app/src/main/java/com/ericp/e_hub/nonogram/NonogramGame.kt:84-87 | one clue per column, the clue of that column read top to bottom |
| NonogramGame.CountBound | app/src/main/java/com/ericp/e_hub/nonogram/NonogramGame.kt:114-115 | a line has at most as many filled cells as cells |
| NonogramGame.ClueSumTestIsVacuous | app/src/main/java/com/ericp/e_hub/nonogram/NonogramGame.kt:112-120 | on any board, the acceptance test holds exactly when the total number of clue values is within 6..20: the clue-sum test never rejects |
| NonogramGame.CountFlip | app/src/main/java/com/ericp/e_hub/nonogram/NonogramGame.kt:132 | flipping one cell changes the number of filled cells of its line by exactly one |
| NonogramGame.SolutionIsSolved | app/src/main/java/com/ericp/e_hub/nonogram/NonogramGame.kt:145-160 | a player board equal to the solution is solved against the solution's clues |
| NonogramGame.FlipBreaksSolved | app/src/main/java/com/ericp/e_hub/nonogram/NonogramGame.kt:130-160 | flipping any on-board cell of a solved board leaves it unsolved |
| NonogramGame.FlipTwice | app/src/main/java/com/ericp/e_hub/nonogram/NonogramGame.kt:130-134 | toggling the same cell twice restores the board |
| NonogramGame.Attempt | app/src/main/java/com/ericp/e_hub/nonogram/NonogramGame.kt:36-43 | the n-by-n board whose cell (i, j) is the random draw of that cell in attempt k |
| NonogramGame.Fallback | app/src/main/java/com/ericp/e_hub/nonogram/NonogramGame.kt:45-77 | the n-by-n top-left corner of the chosen hard-coded 5-by-5 pattern |
| NonogramGame.Verdicts | app/src/main/java/com/ericp/e_hub/nonogram/NonogramGame.kt:22-26 | one acceptance verdict per attempt the loop may draw, 100 in all |
| NonogramGame.VerdictsAt | app/src/main/java/com/ericp/e_hub/nonogram/NonogramGame.kt:23-26 | verdict k is the acceptance test on the clues of attempt k |
| NonogramGame.Chosen | app/src/main/java/com/ericp/e_hub/nonogram/NonogramGame.kt:22-26 | the attempt the do-while loop stops at lies between the start and the 100th attempt |
| NonogramGame.ChosenAfterNone | app/src/main/java/com/ericp/e_hub/nonogram/NonogramGame.kt:22-26 | the loop stops at the first accepted attempt, or at the 100th when none before it is accepted |
| NonogramGame.Generated | app/src/main/java/com/ericp/e_hub/nonogram/NonogramGame.kt:20-34 | the board a generator run ends with is an n-by-n board |
| NonogramGame.GeneratedIsAcceptable | app/src/main/java/com/ericp/e_hub/nonogram/NonogramGame.kt:20-34 | whatever the draws, a 5-by-5 run ends with a board its clues accept |
| NonogramGame.LastAttemptIsDiscarded | app/src/main/java/com/ericp/e_hub/nonogram/NonogramGame.kt:26-31 | when only the 100th attempt is acceptable the counter still reaches 100 and the fallback pattern replaces it |
| NonogramGame.CrossClues | app/src/main/java/com/ericp/e_hub/nonogram/NonogramGame.kt:48-54 | the clues of the cross pattern are 1, 1, 5, 1, 1 on rows and columns |
| NonogramGame.CrossAcceptable | app/src/main/java/com/ericp/e_hub/nonogram/NonogramGame.kt:48-54 | the cross pattern passes the acceptance test |
| NonogramGame.DiamondClues | app/src/main/java/com/ericp/e_hub/nonogram/NonogramGame.kt:55-61 | the clues of the diamond pattern are 1, 1 1, 1 1, 1 1, 1 on rows and columns |
| NonogramGame.DiamondAcceptable | app/src/main/java/com/ericp/e_hub/nonogram/NonogramGame.kt:55-61 | the diamond pattern passes the acceptance test |
| NonogramGame.FrameClues | app/src/main/java/com/ericp/e_hub/nonogram/NonogramGame.kt:62-68 | the clues of the frame pattern are 5, 1 1, 1 1, 1 1, 5 on rows and columns |
| NonogramGame.FrameAcceptable | app/src/main/java/com/ericp/e_hub/nonogram/NonogramGame.kt:62-68 | the frame pattern passes the acceptance test |
| NonogramGame.FallbackAcceptable | app/src/main/java/com/ericp/e_hub/nonogram/NonogramGame.kt:47-69 | each of the three fallback patterns passes the acceptance test |
| NonogramGame.Cells | app/src/main/java/com/ericp/e_hub/nonogram/NonogramGame.kt:8-12 | the cells of a two-dimensional board, row by row, with the board's dimensions |
| NonogramGame.Game.constructor | app/src/main/java/com/ericp/e_hub/nonogram/NonogramGame.kt:5-18 | a new engine has fresh, all-empty solution and player boards and an empty clue array per line |
| NonogramGame.Game.GenerateRandomSolution | app/src/main/java/com/ericp/e_hub/nonogram/NonogramGame.kt:36-43 | the solution is overwritten in place with the draws of the given attempt |
| NonogramGame.Game.CreateSimplePuzzle | app/src/main/java/com/ericp/e_hub/nonogram/NonogramGame.kt:45-77 | the solution is a fresh board holding the chosen fallback pattern; player board and clues are kept |
| NonogramGame.Game.CalculateClues | app/src/main/java/com/ericp/e_hub/nonogram/NonogramGame.kt:79-88 | every row clue and every column clue is the clue of that line of the solution |
| NonogramGame.Game.IsPuzzleValid | app/src/main/java/com/ericp/e_hub/nonogram/NonogramGame.kt:112-120 | the answer is the acceptance test on the current clues |
| NonogramGame.Game.ResetBoard | app/src/main/java/com/ericp/e_hub/nonogram/NonogramGame.kt:126-128 | the player gets a fresh all-empty board; solution and clues are unchanged, so a second reset gives the same state |
| NonogramGame.Game.TryAttempt | app/src/main/java/com/ericp/e_hub/nonogram/NonogramGame.kt:23-26 | one loop round: the solution is attempt k, the clues are its clues, and the verdict is that attempt's |
| NonogramGame.Game.DrawAttempts | app/src/main/java/com/ericp/e_hub/nonogram/NonogramGame.kt:21-26 | the do-while loop makes between 1 and 100 attempts and stops at the attempt the verdicts choose, with matching clues |
| NonogramGame.Game.GenerateNewPuzzle | app/src/main/java/com/ericp/e_hub/nonogram/NonogramGame.kt:20-34 | the solution is the generated board, the clues are its clues, and the player board is all empty |
| NonogramGame.Game.ToggleCell | app/src/main/java/com/ericp/e_hub/nonogram/NonogramGame.kt:130-134 | an on-board cell is flipped and nothing else changes; off-board coordinates change nothing |
| NonogramGame.Game.GetColumnForValidation | app/src/main/java/com/ericp/e_hub/nonogram/NonogramGame.kt:162-164 | the player's column, top to bottom |
| NonogramGame.Game.IsPuzzleSolved | app/src/main/java/com/ericp/e_hub/nonogram/NonogramGame.kt:145-160 | solved if and only if every row and every column of the player's board matches its clue |
| NonogramScreen.ClueStrings | app/src/main/java/com/ericp/e_hub/NonogramActivity.kt:188 | one decimal string per clue value, in order, as `joinToString` renders them |
| NonogramScreen.ColumnPaddingNonNegative | app/src/main/java/com/ericp/e_hub/NonogramActivity.kt:181-187 | the clue of a non-empty column never has more values than `(gridSize + 1) / 2`, so the padding count is never negative |
| NonogramScreen.EmptyColumnTextIsGeneral | app/src/main/java/com/ericp/e_hub/NonogramActivity.kt:184-188 | on a 5-cell board the `"\n\n0"` special case equals what the general padding formula gives for `[0]` |
| NonogramScreen.ParseAll | app/src/main/java/com/ericp/e_hub/NonogramActivity.kt:188 | reading the printed clue values back yields one value per field |
| NonogramScreen.ParseAllClueStrings | app/src/main/java/com/ericp/e_hub/NonogramActivity.kt:188-212 | the printed clue values read back as the same values |
| NonogramScreen.ClueStringsFree | app/src/main/java/com/ericp/e_hub/NonogramActivity.kt:188-212 | no printed value contains a space or a newline, so the separators split the label unambiguously |
| NonogramScreen.LineCluesInRange | app/src/main/java/com/ericp/e_hub/NonogramActivity.kt:188-212 | every clue value of a line fits in a Kotlin `Int` |
| NonogramScreen.RowClueTextRoundTrip | app/src/main/java/com/ericp/e_hub/NonogramActivity.kt:209-213 | a row label shows exactly the row's clue: `"0"` for the empty row, otherwise the values joined by single spaces; `RowClueText` is that label |
| NonogramScreen.ColumnClueTextRoundTrip | app/src/main/java/com/ericp/e_hub/NonogramActivity.kt:181-189 | a column label is the padding newlines followed by the values joined by newlines, and reads back as exactly the column's clue; `ColumnClueText` is that label |
| NonogramScreen.ColumnTextReadsBack | app/src/main/java/com/ericp/e_hub/NonogramActivity.kt:179-189 | the label of column j of a board reads back as that column's clue |
| NonogramScreen.ColumnTextsFit | app/src/main/java/com/ericp/e_hub/NonogramActivity.kt:181-187 | every column clue of a board fits the padded label height |
| NonogramScreen.ColumnTextsReadBack | app/src/main/java/com/ericp/e_hub/NonogramActivity.kt:171-177 | all column labels built for a board read back as their column clues |
| NonogramScreen.LeadingNewlines | app/src/main/java/com/ericp/e_hub/NonogramActivity.kt:187 | the number of newlines a column label starts with |
| NonogramScreen.Columns | app/src/main/java/com/ericp/e_hub/NonogramActivity.kt:299-305 | the columns the validation loop projects, one per index, top to bottom |
| NonogramScreen.NonogramActivity.constructor | app/src/main/java/com/ericp/e_hub/NonogramActivity.kt:37-47 | a new screen over a fresh engine and a fresh timer |
| NonogramScreen.NonogramActivity.ValidateRows | app/src/main/java/com/ericp/e_hub/NonogramActivity.kt:292-297 | row highlight i is on exactly when the player's row i matches row clue i |
| NonogramScreen.NonogramActivity.ValidateColumns | app/src/main/java/com/ericp/e_hub/NonogramActivity.kt:299-305 | column highlight j is on exactly when the player's column j, top to bottom, matches column clue j |
| NonogramScreen.NonogramActivity.ValidateAllLines | app/src/main/java/com/ericp/e_hub/NonogramActivity.kt:287-290 | afterwards every highlight reflects the current board |
| NonogramScreen.NonogramActivity.SetupColumnClues | app/src/main/java/com/ericp/e_hub/NonogramActivity.kt:171-189 | one label per column: `"\n\n0"` for an empty column, otherwise the values one per line pushed down by blank lines to `(gridSize + 1) / 2` lines (`ColumnClueText`); each reads back as that column's clue |
| NonogramScreen.NonogramActivity.SetupRowClues | app/src/main/java/com/ericp/e_hub/NonogramActivity.kt:200-213 | one label per row: `"0"` for an empty row, otherwise the values separated by single spaces (`RowClueText`); each reads back as that row's clue |
| NonogramScreen.NonogramActivity.SetupGrid | app/src/main/java/com/ericp/e_hub/NonogramActivity.kt:152-161 | every row and column label is the text of its clue, as `SetupRowClues` and `SetupColumnClues` state, and reads back as it; all highlights reflect the board |
| NonogramScreen.NonogramActivity.HandleCellClick | app/src/main/java/com/ericp/e_hub/NonogramActivity.kt:261-270 | the clicked cell alone is toggled, every line is re-validated on the new board, the answer is whether it is solved, and a solved board stops the timer |
| NonogramScreen.NonogramActivity.ResetBoard | app/src/main/java/com/ericp/e_hub/NonogramActivity.kt:401-411 | the player board is all empty, solution and clues are kept, highlights are current, and the timer restarts from zero |
| NonogramScreen.NonogramActivity.StartNewGame | app/src/main/java/com/ericp/e_hub/NonogramActivity.kt:145-150 | a generated puzzle with matching clues, an empty player board, every row and column label drawn as the text of its new clue and reading back as it, current highlights, and a timer restarted from zero |
| KotlinInt.ToInt32 | app/src/main/java/com/ericp/e_hub/nonogram/GameTimer.kt:33 | `toInt()` keeps the value when it fits in 32 bits and otherwise wraps it modulo 2^32 into the `Int` range |
| KotlinInt.Quot | app/src/main/java/com/ericp/e_hub/nonogram/GameTimer.kt:33-35 | Kotlin's `/` on a positive divisor truncates toward zero: `b * q` lies between zero and the dividend, less than one divisor away from it, for either sign of the dividend |
| KotlinInt.Rem | app/src/main/java/com/ericp/e_hub/nonogram/GameTimer.kt:41-42 | Kotlin's `%` pairs with `/` (a = b·q + r) and takes the sign of the dividend |
| Timer.Pad2 | app/src/main/java/com/ericp/e_hub/nonogram/GameTimer.kt:37-42 | `%02d` of a non-negative value is all digits and denotes that value, is at least two characters wide with a leading zero only as padding, and is exactly two characters for a value below 100 |
| Timer.ComponentsDecompose | app/src/main/java/com/ericp/e_hub/nonogram/GameTimer.kt:32-43 | hours, minutes mod 60 and seconds mod 60 recombine to the whole elapsed seconds, with minutes and seconds below 60; `Components` computes them from the millis |
| Timer.ParsePad2 | app/src/main/java/com/ericp/e_hub/nonogram/GameTimer.kt:39 | a zero-padded field reads back as its value |
| Timer.SplitFields | app/src/main/java/com/ericp/e_hub/nonogram/GameTimer.kt:39 | the displayed text splits at its colons into exactly its three fields |
| Timer.ReadFields | app/src/main/java/com/ericp/e_hub/nonogram/GameTimer.kt:37-43 | a displayed `HH:MM:SS` text stands for h·3600 + m·60 + s seconds |
| Timer.ElapsedTextRoundTrip | app/src/main/java/com/ericp/e_hub/nonogram/GameTimer.kt:32-43 | the displayed text of an elapsed time reads back as its whole seconds; `ElapsedText` is that text |
| Timer.GameTimer.constructor | app/src/main/java/com/ericp/e_hub/nonogram/GameTimer.kt:9-12 | a new timer is stopped with every counter at zero |
| Timer.GameTimer.Display | app/src/main/java/com/ericp/e_hub/nonogram/GameTimer.kt:29-43 | a tick shows text only while running, and the text reads back as the elapsed whole seconds (accumulated time plus the current stretch); `Elapsed` is that sum at a clock reading |
| Timer.GameTimer.Start | app/src/main/java/com/ericp/e_hub/nonogram/GameTimer.kt:22-26 | a no-op while running; otherwise the timer runs from `now` and the accumulated time is kept |
| Timer.GameTimer.Pause | app/src/main/java/com/ericp/e_hub/nonogram/GameTimer.kt:56-64 | a no-op when stopped; otherwise the current stretch is added to the accumulated time, which then equals the elapsed time and, with a forward clock, does not decrease |
| Timer.GameTimer.Resume | app/src/main/java/com/ericp/e_hub/nonogram/GameTimer.kt:66-69 | a no-op while running; otherwise the same as `Start` |
| Timer.GameTimer.Stop | app/src/main/java/com/ericp/e_hub/nonogram/GameTimer.kt:71-77 | the timer stops with the accumulated and paused times reset to zero |
| Timer.GameTimer.Restart | app/src/main/java/com/ericp/e_hub/nonogram/GameTimer.kt:79-82 | `Stop` then `Start`: running from `now` with nothing accumulated, so the elapsed time is 0 |
| Timer.PauseResumeContinuity | app/src/main/java/com/ericp/e_hub/nonogram/GameTimer.kt:56-69 | a pause followed by a resume loses no play time: the elapsed time at the resume equals that at the pause |
| ToDoAdapter.ViewType | app/src/main/java/com/ericp/e_hub/adapters/ToDoAdapter.kt:57-62 | every row kind maps to one of the constants 1 to 4 |
| ToDoAdapter.ViewTypesDistinct | app/src/main/java/com/ericp/e_hub/adapters/ToDoAdapter.kt:57-62 | two rows share a view type if and only if they are of the same kind |
| ToDoAdapter.NextStateCycle | app/src/main/java/com/ericp/e_hub/adapters/ToDoAdapter.kt:164-170 | one or two checkbox clicks always change the state, and three clicks give it back: TODO, IN_PROGRESS, DONE is a 3-cycle; `NextState` models the click's `when` |
| ToDoAdapter.ShadesAlternate | app/src/main/java/com/ericp/e_hub/adapters/ToDoAdapter.kt:218-223 | the Nav shade repeats every four indices, and neighbouring indices never share a shade; `ShadeOf` models the `when` on `shadeIndex % 4` |
| ToDoAdapter.ToDoListAdapter.constructor | app/src/main/java/com/ericp/e_hub/adapters/ToDoAdapter.kt:47 | a new adapter holds no rows |
| ToDoAdapter.ToDoListAdapter.SubmitItems | app/src/main/java/com/ericp/e_hub/adapters/ToDoAdapter.kt:49-53 | the rows are replaced wholesale by the given rows, in order |
| ToDoAdapter.ToDoListAdapter.GetItem | app/src/main/java/com/ericp/e_hub/adapters/ToDoAdapter.kt:55 | the row at a position inside the list, and null for any position outside it |
| ToDoAdapter.ToDoListAdapter.GetItemViewType | app/src/main/java/com/ericp/e_hub/adapters/ToDoAdapter.kt:57-62 | the view type of the row at the position |
| ToDoScreen.ApplyOverrides | app/src/main/java/com/ericp/e_hub/ToDoActivity.kt:283-294 | state, label, description and modified take their override where one exists (a null description override counts as none); id, parent, children, colour, created and due date never change |
| ToDoScreen.ApplyOverridesIdempotent | app/src/main/java/com/ericp/e_hub/ToDoActivity.kt:314-316 | applying the overrides twice, as `findById` does for a task found below a root, gives the same task as applying them once |
| ToDoScreen.NoOverridesShowServer | app/src/main/java/com/ericp/e_hub/ToDoActivity.kt:283-294 | with no override recorded, every task shows as the server sent it |
| ToDoScreen.ClearedShowsServer | app/src/main/java/com/ericp/e_hub/ToDoActivity.kt:600-605 | after the overrides for one id are cleared, that task shows as the server sent it and every other task keeps its overrides |
| ToDoScreen.AppendPending | app/src/main/java/com/ericp/e_hub/ToDoActivity.kt:360-361 | `getOrPut(parent).add(task)`: the new task is appended to the pending list of that parent and every other list is unchanged |
| ToDoScreen.NewerFirstIsTotalPreorder | app/src/main/java/com/ericp/e_hub/ToDoActivity.kt:704-705 | the descending creation order is a total preorder, so sorting by it is well defined |
| ToDoScreen.MergeAndSortByCreatedDesc | app/src/main/java/com/ericp/e_hub/ToDoActivity.kt:704-705 | the merged list holds exactly the tasks of both lists, ordered by creation key descending |
| ToDoScreen.TaskRows | app/src/main/java/com/ericp/e_hub/ToDoActivity.kt:298-304 | one task row per task of the list, each built by the row rule (overridden task, depth, selection, children and collapsed flags); `TaskRowOf` is the row rule |
| ToDoScreen.RowsAtOrBelowConcat | app/src/main/java/com/ericp/e_hub/ToDoActivity.kt:296-309 | rows at or below a depth stay so when lists of them are concatenated |
| ToDoScreen.FlattenRows | app/src/main/java/com/ericp/e_hub/ToDoActivity.kt:296-309 | `flatten` at a depth emits only rows at that depth or deeper |
| ToDoScreen.AtLevelConcat | app/src/main/java/com/ericp/e_hub/ToDoActivity.kt:296-309 | the rows at one depth of a concatenation are those of each part, in order |
| ToDoScreen.AtLevelDeeper | app/src/main/java/com/ericp/e_hub/ToDoActivity.kt:306 | the rows emitted for children lie strictly deeper than their parent |
| ToDoScreen.FlattenTopLevel | app/src/main/java/com/ericp/e_hub/ToDoActivity.kt:296-309 | the rows at the starting depth are exactly one row per listed task, in pre-order: children are inserted only below their parent; `Flatten` models `flatten` |
| ToDoScreen.FlattenCollapsed | app/src/main/java/com/ericp/e_hub/ToDoActivity.kt:302-306 | when every task with children is collapsed, `flatten` shows only the listed tasks themselves |
| ToDoScreen.FlattenClosedHead | app/src/main/java/com/ericp/e_hub/ToDoActivity.kt:305-306 | a task without children, or collapsed, contributes only its own row; the children shown are `Kids`: the server children merged with the pending ones (`PendingFor`, empty for a parent with none) |
| ToDoScreen.BranchesConcat | app/src/main/java/com/ericp/e_hub/ToDoActivity.kt:635-646 | the tasks with children of a concatenation are those of each part |
| ToDoScreen.CollectIsBranches | app/src/main/java/com/ericp/e_hub/ToDoActivity.kt:635-646 | with minimum depth 0 the collected ids are exactly the tasks with children reached through shown children; `CollectIdsWithChildren` models `collectIdsWithChildren` |
| ToDoScreen.CollectHasTopBranches | app/src/main/java/com/ericp/e_hub/ToDoActivity.kt:638-640 | every listed task with children at or beyond the minimum depth is collected |
| ToDoScreen.FindRoot | app/src/main/java/com/ericp/e_hub/ToDoActivity.kt:629 | `roots.find`: the first root with the id, or null exactly when no root has it |
| ToDoScreen.SeedShowsFirstLevel | app/src/main/java/com/ericp/e_hub/ToDoActivity.kt:627-632 | after seeding for a known root, its tree shows exactly its first level: every task below it with children is collapsed; `SeedCollapsed` models the seeding |
| ToDoScreen.FirstWithId | app/src/main/java/com/ericp/e_hub/ToDoActivity.kt:311-319 | the first task of a list with the id, or null exactly when none has it |
| ToDoScreen.FirstWithIdConcat | app/src/main/java/com/ericp/e_hub/ToDoActivity.kt:311-319 | searching a concatenation finds the first part's match before the second's |
| ToDoScreen.WalkIsFirstInPreorder | app/src/main/java/com/ericp/e_hub/ToDoActivity.kt:312-319 | the nested walk of `findById` returns the overridden first task with the id in pre-order of the server trees; `Walk` models that walk |
| ToDoScreen.FirstPending | app/src/main/java/com/ericp/e_hub/ToDoActivity.kt:322 | null exactly when no parent's pending list holds a task with the id; otherwise the first task with the id in the first list, in the parents' insertion order, that holds one |
| ToDoScreen.FindById | app/src/main/java/com/ericp/e_hub/ToDoActivity.kt:311-324 | the overridden first server task with the id in pre-order; failing that the overridden first pending match (`FirstPending`); null exactly when neither exists |
| ToDoScreen.ExistsInPreorder | app/src/main/java/com/ericp/e_hub/ToDoActivity.kt:240-246 | the nested `existsIn` holds exactly when some task of the server trees has the id; `ExistsIn` models `existsIn` |
| ToDoScreen.RootsOf | app/src/main/java/com/ericp/e_hub/ToDoActivity.kt:223-224 | the roots are exactly the fetched tasks without a parent, each as often as the list holds it (the same multiset as the filter), ordered newest first |
| ToDoScreen.TopLevelOf | app/src/main/java/com/ericp/e_hub/ToDoActivity.kt:223 | `filter`: a task is kept exactly when it has no parent, as often as the list holds it, and the kept tasks stay in their order (a subsequence of the list) |
| ToDoScreen.Reselect | app/src/main/java/com/ericp/e_hub/ToDoActivity.kt:231-248 | the previous root is kept if it still exists, else none when the user closed it, else the first root; the previous parent selection is kept if it exists anywhere in the trees and otherwise falls back to the selected root |
| ToDoScreen.ExistsInRoots | app/src/main/java/com/ericp/e_hub/ToDoActivity.kt:247 | the test combines "is a root" with "is below some root" |
| ToDoScreen.ReselectExists | app/src/main/java/com/ericp/e_hub/ToDoActivity.kt:231-248 | after a refresh the selected root and parent, when present, exist in the new trees |
| ToDoScreen.ReselectStable | app/src/main/java/com/ericp/e_hub/ToDoActivity.kt:231-248 | reselecting again over the same roots keeps the selection |
| ToDoScreen.Candidates | app/src/main/java/com/ericp/e_hub/ToDoActivity.kt:686-692 | the time stamps the header walk considers, at least one per listed task |
| ToDoScreen.MaxOf | app/src/main/java/com/ericp/e_hub/ToDoActivity.kt:665-696 | the largest element of a non-empty list, which belongs to it |
| ToDoScreen.Latest | app/src/main/java/com/ericp/e_hub/ToDoActivity.kt:665-696 | the intended header time: one of the walked candidates and no smaller than any of them |
| ToDoScreen.LatestCoversRoot | app/src/main/java/com/ericp/e_hub/ToDoActivity.kt:688 | the header time is no older than the root's own candidate (its override, else its modified, else its created time) |
| ToDoScreen.LatestAsWrittenShowsLastVisited | app/src/main/java/com/ericp/e_hub/ToDoActivity.kt:665-696 | `LatestAsWritten` models `computeLatestTimestampIso` as written, returning the last candidate of the walk; for a root created at 5 with one child created at 1 and nothing modified it shows 1, where the latest time is 5 |
| ToDoScreen.NavRows | app/src/main/java/com/ericp/e_hub/ToDoActivity.kt:260-278 | one Nav row per root, in order, with its upper-cased label and its index as shade |
| ToDoScreen.OtherRoots | app/src/main/java/com/ericp/e_hub/ToDoActivity.kt:266 | `filter`: the roots with another id, each as often as before and in their order (a subsequence of the roots); all the roots when none has the id |
| ToDoScreen.OtherRootsRemovesOne | app/src/main/java/com/ericp/e_hub/ToDoActivity.kt:265-266 | when exactly one root, at index k, has the open root's id, the other roots are the roots with index k removed |
| ToDoScreen.OpenRoot | app/src/main/java/com/ericp/e_hub/ToDoActivity.kt:265 | the root with the selected id, or the first root when none has it |
| ToDoScreen.NavRowsOfOthers | app/src/main/java/com/ericp/e_hub/ToDoActivity.kt:266-278 | the open root never appears among the Nav rows under its tree |
| ToDoScreen.Toggled | app/src/main/java/com/ericp/e_hub/ToDoActivity.kt:537-538 | the id is in the new set exactly when it was not in the old one; no other id changes |
| ToDoScreen.ToggledTwice | app/src/main/java/com/ericp/e_hub/ToDoActivity.kt:537-538 | toggling the same id twice restores the collapsed set |
| ToDoScreen.ToDoActivity.constructor | app/src/main/java/com/ericp/e_hub/ToDoActivity.kt:52-66 | no roots, no selection, no overrides, no pending tasks, nothing collapsed, and an empty adapter |
| ToDoScreen.ToDoActivity.Render | app/src/main/java/com/ericp/e_hub/ToDoActivity.kt:255-281 | the adapter shows the rows of the current state (`RowsOf`): Nav rows alone with no open root, otherwise the header (`HeaderOf`: the upper-cased label and the corrected latest time), the tree (`Tree`: the open root's children and pending tasks flattened from depth 0), the input row and the other roots |
| ToDoScreen.ToDoActivity.ClearOverridesFor | app/src/main/java/com/ericp/e_hub/ToDoActivity.kt:600-605 | every override for the id is removed and the others stay |
| ToDoScreen.ToDoActivity.OnToggleExpand | app/src/main/java/com/ericp/e_hub/ToDoActivity.kt:537-540 | the id's collapsed membership flips and the list is re-rendered |
| ToDoScreen.ToDoActivity.OnSelectTask | app/src/main/java/com/ericp/e_hub/ToDoActivity.kt:438-441 | the task becomes the selected parent and the list is re-rendered |
| ToDoScreen.ToDoActivity.OnCloseRoot | app/src/main/java/com/ericp/e_hub/ToDoActivity.kt:543-548 | no root or parent is selected, the close is remembered, and only the Nav rows of the roots are shown |
| ToDoScreen.ToDoActivity.SeedCollapsedForRoot | app/src/main/java/com/ericp/e_hub/ToDoActivity.kt:627-632 | the collapsed set becomes the descendants with children of the root's first level, or empty for an unknown root |
| ToDoScreen.ToDoActivity.OnAddTask | app/src/main/java/com/ericp/e_hub/ToDoActivity.kt:344-362 | with no parent and no root selected nothing changes; otherwise a TODO task under the selected parent (else the root) is appended to that parent's pending list and the list is re-rendered |
| ToDoScreen.ToDoActivity.ReselectAfterRefresh | app/src/main/java/com/ericp/e_hub/ToDoActivity.kt:231-248 | the selection follows the reselection rule, and the collapsed set is re-seeded exactly when a different root opens |
| ToDoScreen.ToDoActivity.ShowNoRoots | app/src/main/java/com/ericp/e_hub/ToDoActivity.kt:225-229 | with no roots, nothing is selected and the adapter is empty |
| ToDoScreen.ToDoActivity.ShowRoots | app/src/main/java/com/ericp/e_hub/ToDoActivity.kt:220-249 | the refresh over already ordered roots: pending tasks are dropped, the selection follows the reselection rule, the collapsed set is re-seeded when the open root changes, and the rows are rendered |
| ToDoScreen.ToDoActivity.RefreshFromServer | app/src/main/java/com/ericp/e_hub/ToDoActivity.kt:217-253 | on a fetched list, the roots are its parentless tasks newest first, and the rest follows `ShowRoots` |
| ToBuyScreen.NextOnPriceClick | app/src/main/java/com/ericp/e_hub/ToBuyActivity.kt:229-234 | the price button goes PRICE_DESC to PRICE_ASC, PRICE_ASC to NONE, and any other mode to PRICE_DESC (each as an if-and-only-if) |
| ToBuyScreen.NextOnDateClick | app/src/main/java/com/ericp/e_hub/ToBuyActivity.kt:239-244 | the date button goes DATE_NEWEST to DATE_OLDEST, DATE_OLDEST to NONE, and any other mode to DATE_NEWEST (each as an if-and-only-if) |
| ToBuyScreen.SortButtonsCycle | app/src/main/java/com/ericp/e_hub/ToBuyActivity.kt:229-244 | three clicks on the same button from its own cycle give the mode back, and a button never selects the other button's modes |
| ToBuyScreen.Take | app/src/main/java/com/ericp/e_hub/ToBuyActivity.kt:284 | `take(4)`: the first four characters, or the whole string when shorter |
| ToBuyScreen.ExtractYear | app/src/main/java/com/ericp/e_hub/ToBuyActivity.kt:282-285 | null for a null or blank string; otherwise the Int the first four characters parse to, or null |
| ToBuyScreen.ExtractYearOfDate | app/src/main/java/com/ericp/e_hub/ToBuyActivity.kt:282-285 | a date starting with a four-digit year yields that year |
| ToBuyScreen.Years | app/src/main/java/com/ericp/e_hub/ToBuyActivity.kt:301-302 | the years found among the items are Ints |
| ToBuyScreen.YearsOfItems | app/src/main/java/com/ericp/e_hub/ToBuyActivity.kt:301-302 | a year is found exactly when some item was created in it |
| ToBuyScreen.Distinct | app/src/main/java/com/ericp/e_hub/ToBuyActivity.kt:303 | `distinct()` keeps every element once and no other |
| ToBuyScreen.YearValues | app/src/main/java/com/ericp/e_hub/ToBuyActivity.kt:301-305 | the year options are strictly descending and are exactly the parseable years of the items |
| ToBuyScreen.YearOptions | app/src/main/java/com/ericp/e_hub/ToBuyActivity.kt:307 | "All" followed by one entry per year |
| ToBuyScreen.YearTexts | app/src/main/java/com/ericp/e_hub/ToBuyActivity.kt:305 | each year printed in decimal, in order |
| ToBuyScreen.SelectingAYear | app/src/main/java/com/ericp/e_hub/ToBuyActivity.kt:249-254 | choosing "All" clears the year filter; choosing entry k selects its year, which some item has; `SelectedYearOf` models the choice |
| ToBuyScreen.Filter | app/src/main/java/com/ericp/e_hub/ToBuyActivity.kt:347-352 | an item is kept exactly when it is unbought or the filter is off, its title contains the query ignoring case or the query is empty, and its year matches or none is selected; `Passes` is that test |
| ToBuyScreen.FilterNothing | app/src/main/java/com/ericp/e_hub/ToBuyActivity.kt:347-352 | with every filter off, all items pass in order |
| ToBuyScreen.FilterAppend | app/src/main/java/com/ericp/e_hub/ToBuyActivity.kt:347-352 | the filter works item by item, keeping the order |
| ToBuyScreen.CategoriesOrDefault | app/src/main/java/com/ericp/e_hub/ToBuyActivity.kt:356 | an item without categories is filed under a single "Uncategorized" category |
| ToBuyScreen.CategoryNames | app/src/main/java/com/ericp/e_hub/ToBuyActivity.kt:358 | each category gives its name, or "Uncategorized" for a null name |
| ToBuyScreen.NamesOfItem | app/src/main/java/com/ericp/e_hub/ToBuyActivity.kt:356-358 | an item joins "Uncategorized" when it has no categories, the group of each of its categories, and no group that is not one of its category names |
| ToBuyScreen.Keys | app/src/main/java/com/ericp/e_hub/ToBuyActivity.kt:354 | the group names, in insertion order |
| ToBuyScreen.GetOrPutAdd | app/src/main/java/com/ericp/e_hub/ToBuyActivity.kt:359 | `getOrPut(name).add(item)` appends the item to that group only, and a new name joins the keys at the end |
| ToBuyScreen.GroupByCategory | app/src/main/java/com/ericp/e_hub/ToBuyActivity.kt:354-361 | the nested loops build the grouping of the filtered items |
| ToBuyScreen.GroupedPrefix | app/src/main/java/com/ericp/e_hub/ToBuyActivity.kt:355-360 | each round of the outer loop files one more item |
| ToBuyScreen.FileUnderCategories | app/src/main/java/com/ericp/e_hub/ToBuyActivity.kt:356-360 | the inner loop files the item under each of its names |
| ToBuyScreen.AddUnderLookup | app/src/main/java/com/ericp/e_hub/ToBuyActivity.kt:357-360 | filing an item adds it to a group once per occurrence of that group's name |
| ToBuyScreen.AddUnderKeys | app/src/main/java/com/ericp/e_hub/ToBuyActivity.kt:357-360 | filing keeps the group names distinct and adds exactly the new names |
| ToBuyScreen.GroupedContents | app/src/main/java/com/ericp/e_hub/ToBuyActivity.kt:354-361 | each group holds, in order, every filtered item once per category with that name; `Grouped` models the grouping |
| ToBuyScreen.GroupedKeys | app/src/main/java/com/ericp/e_hub/ToBuyActivity.kt:354-361 | the group names are distinct and are exactly the names some filtered item carries |
| ToBuyScreen.OccurrencesMembership | app/src/main/java/com/ericp/e_hub/ToBuyActivity.kt:354-361 | an item is in a group exactly when it passed the filter and carries the group's name |
| ToBuyScreen.Total | app/src/main/java/com/ericp/e_hub/ToBuyActivity.kt:372 | the total of the prices is an Int |
| ToBuyScreen.TotalIsWrappedSum | app/src/main/java/com/ericp/e_hub/ToBuyActivity.kt:372 | `sumOf { price ?: 0 }` is the exact sum of the prices, a null counting as 0, wrapped to 32 bits; without overflow it is the exact sum |
| ToBuyScreen.TotalPermutation | app/src/main/java/com/ericp/e_hub/ToBuyActivity.kt:372-386 | reordering the items does not change their total, so a sorted section keeps its group's total |
| ToBuyScreen.SumOfPermutation | app/src/main/java/com/ericp/e_hub/ToBuyActivity.kt:372 | a sum does not depend on the order of its terms |
| ToBuyScreen.Stamps | app/src/main/java/com/ericp/e_hub/ToBuyActivity.kt:373 | one parsed time stamp per item |
| ToBuyScreen.MaxOf | app/src/main/java/com/ericp/e_hub/ToBuyActivity.kt:374 | the largest time stamp, which is one of them |
| ToBuyScreen.MinOf | app/src/main/java/com/ericp/e_hub/ToBuyActivity.kt:375 | the smallest time stamp, which is one of them |
| ToBuyScreen.StampsOrZero | app/src/main/java/com/ericp/e_hub/ToBuyActivity.kt:373 | `ifEmpty { listOf(0L) }`: never empty |
| ToBuyScreen.FirstNamed | app/src/main/java/com/ericp/e_hub/ToBuyActivity.kt:377 | the first category of the items with the name, or null exactly when none has it |
| ToBuyScreen.CategoryFor | app/src/main/java/com/ericp/e_hub/ToBuyActivity.kt:377-378 | a section's category carries the group's name and is one of the items' categories or a new one with only that name |
| ToBuyScreen.ItemOrderTotal | app/src/main/java/com/ericp/e_hub/ToBuyActivity.kt:380-386 | each item order of the five sort modes is a total preorder |
| ToBuyScreen.MetaOrderTotal | app/src/main/java/com/ericp/e_hub/ToBuyActivity.kt:391-397 | each section order of the five sort modes is a total preorder |
| ToBuyScreen.Metas | app/src/main/java/com/ericp/e_hub/ToBuyActivity.kt:371-389 | one section per group |
| ToBuyScreen.MetasAt | app/src/main/java/com/ericp/e_hub/ToBuyActivity.kt:371-389 | section k is built from group k |
| ToBuyScreen.SectionOfGroup | app/src/main/java/com/ericp/e_hub/ToBuyActivity.kt:371-389 | a section holds a permutation of its group's items, sorted by the mode's item order, with the group's total; `MetaOf` models one section |
| ToBuyScreen.SectionsSorted | app/src/main/java/com/ericp/e_hub/ToBuyActivity.kt:380-397 | the sections are sorted by the mode's section order and each section's items by its item order |
| ToBuyScreen.SectionContents | app/src/main/java/com/ericp/e_hub/ToBuyActivity.kt:346-397 | every section shown holds exactly the filtered items of its category, in some order, and its total is their total; `SectionsFor` models the whole computation |
| ToBuyScreen.EveryGroupHasSection | app/src/main/java/com/ericp/e_hub/ToBuyActivity.kt:346-397 | every category some filtered item carries has a section |
| ToBuyActivityState.NewSections | app/src/main/java/com/ericp/e_hub/ToBuyActivity.kt:399 | one fresh, collapsed section object per computed section, in order, all distinct |
| ToBuyActivityState.SortedSections | app/src/main/java/com/ericp/e_hub/ToBuyActivity.kt:371-397 | the sections, grouped and sorted as the sort mode says; `SectionsOf` applies it to the screen's settings |
| ToBuyActivityState.ToBuyActivity.constructor | app/src/main/java/com/ericp/e_hub/ToBuyActivity.kt:54-63 | no items, no year options, the default filters (only not bought, empty query, no year, no sorting) and an empty adapter |
| ToBuyActivityState.ToBuyActivity.UpdateCategorySections | app/src/main/java/com/ericp/e_hub/ToBuyActivity.kt:346-408 | the sections and the total shown are recomputed from the current items and filters, and every section starts collapsed; `FilterOf` is the filter under the screen's settings |
| ToBuyActivityState.ToBuyActivity.ShowSections | app/src/main/java/com/ericp/e_hub/ToBuyActivity.kt:399-403 | the adapter gets fresh collapsed section objects for the computed sections |
| ToBuyActivityState.ToBuyActivity.OnPriceSortClick | app/src/main/java/com/ericp/e_hub/ToBuyActivity.kt:229-237 | the sort mode takes the price cycle's next value, everything else stays, and the sections are recomputed |
| ToBuyActivityState.ToBuyActivity.OnDateSortClick | app/src/main/java/com/ericp/e_hub/ToBuyActivity.kt:239-247 | the sort mode takes the date cycle's next value, everything else stays, and the sections are recomputed |
| ToBuyActivityState.ToBuyActivity.SetFilterState | app/src/main/java/com/ericp/e_hub/ToBuyActivity.kt:273-280 | only the bought filter changes, and the sections are recomputed |
| ToBuyActivityState.ToBuyActivity.OnSearchTextChanged | app/src/main/java/com/ericp/e_hub/ToBuyActivity.kt:217-224 | the query becomes the trimmed text, or empty for null, and the sections are recomputed |
| ToBuyActivityState.ToBuyActivity.SetSearchQuery | app/src/main/java/com/ericp/e_hub/ToBuyActivity.kt:221-222 | the query becomes the given text, the items, year options and other filters stay, and the sections are recomputed |
| ToBuyActivityState.ToBuyActivity.OnYearSelected | app/src/main/java/com/ericp/e_hub/ToBuyActivity.kt:249-254 | the year filter becomes none for "All" and otherwise the entry's number, and the sections are recomputed |
| ToBuyActivityState.ToBuyActivity.UpdateYearFilterOptions | app/src/main/java/com/ericp/e_hub/ToBuyActivity.kt:300-307 | the year options are recomputed from the items and nothing else changes |
| ToBuyActivityState.ToBuyActivity.AddToBuyItem | app/src/main/java/com/ericp/e_hub/ToBuyActivity.kt:421-425 | the item is appended, the year options and sections are recomputed, and the filters stay |
| ToBuyActivityState.ToBuyActivity.OnItemsFetched | app/src/main/java/com/ericp/e_hub/ToBuyActivity.kt:448-451 | the items become the fetched ones, the year options are recomputed, and the bought filter is reset to "only not bought" |
| ToBuyActivityState.ToBuyActivity.RemoveItemAt | app/src/main/java/com/ericp/e_hub/ToBuyActivity.kt:158-172 | the item at the position is removed, the others keep their order, and the sections are recomputed |
| ToBuyActivityState.ToBuyActivity.ReplaceItemAt | app/src/main/java/com/ericp/e_hub/ToBuyActivity.kt:187-204 | the item at the position is replaced, and the sections are recomputed |
| ToBuyActivityState.ToBuyActivity.OnSectionHeaderClick | app/src/main/java/com/ericp/e_hub/adapters/tobuy/CategoryAccordionAdapter.kt:220-230 | a header click flips the clicked section and collapses every other one |
| CategoryAccordion.Section.constructor | app/src/main/java/com/ericp/e_hub/adapters/tobuy/CategoryAccordionAdapter.kt:18-22 | a section with the given category, items and expansion flag |
| CategoryAccordion.ItemEntries | app/src/main/java/com/ericp/e_hub/adapters/tobuy/CategoryAccordionAdapter.kt:46 | one item row per item of the section, in order |
| CategoryAccordion.FlatConcat | app/src/main/java/com/ericp/e_hub/adapters/tobuy/CategoryAccordionAdapter.kt:41-49 | the rows of consecutive sections are the rows of each in turn |
| CategoryAccordion.ExpandedItemCountConcat | app/src/main/java/com/ericp/e_hub/adapters/tobuy/CategoryAccordionAdapter.kt:41-49 | the expanded items of consecutive sections add up |
| CategoryAccordion.FlatLength | app/src/main/java/com/ericp/e_hub/adapters/tobuy/CategoryAccordionAdapter.kt:41-49 | the row count is the number of sections plus the items of the expanded sections |
| CategoryAccordion.SectionRows | app/src/main/java/com/ericp/e_hub/adapters/tobuy/CategoryAccordionAdapter.kt:41-49 | each section's header is followed immediately by its items when it is expanded, in section order |
| CategoryAccordion.OnlyOneExpandedCount | app/src/main/java/com/ericp/e_hub/adapters/tobuy/CategoryAccordionAdapter.kt:220-230 | with at most one section expanded, the rows beyond the headers are that section's items, or none |
| CategoryAccordion.RowChange | app/src/main/java/com/ericp/e_hub/adapters/tobuy/CategoryAccordionAdapter.kt:232-239 | a longer list is announced as rows inserted at the old end, a shorter one as rows removed at the new end, the count being the difference; equal lengths announce nothing |
| CategoryAccordion.CategoryAccordionAdapter.constructor | app/src/main/java/com/ericp/e_hub/adapters/tobuy/CategoryAccordionAdapter.kt:24-39 | the adapter holds the given sections and its rows are their flattening |
| CategoryAccordion.CategoryAccordionAdapter.UpdateExpandedItems | app/src/main/java/com/ericp/e_hub/adapters/tobuy/CategoryAccordionAdapter.kt:41-49 | the rows are recomputed as the flattening of the sections |
| CategoryAccordion.CategoryAccordionAdapter.ItemCount | app/src/main/java/com/ericp/e_hub/adapters/tobuy/CategoryAccordionAdapter.kt:88 | the item count is the number of sections plus the items of the expanded ones |
| CategoryAccordion.CategoryAccordionAdapter.ItemViewType | app/src/main/java/com/ericp/e_hub/adapters/tobuy/CategoryAccordionAdapter.kt:51-57 | a header row has the header type and an item row the item type |
| CategoryAccordion.CategoryAccordionAdapter.UpdateSections | app/src/main/java/com/ericp/e_hub/adapters/tobuy/CategoryAccordionAdapter.kt:90-102 | the sections become the new ones, the rows are recomputed, and a change of length or an empty list reloads everything while equal lengths mark the whole range changed |
| CategoryAccordion.CategoryAccordionAdapter.OnHeaderClick | app/src/main/java/com/ericp/e_hub/adapters/tobuy/CategoryAccordionAdapter.kt:220-240 | every other section is collapsed, the clicked one flips, the rows are recomputed, and the announced row change matches the difference in length |
| MutableLists.MutableList.constructor | app/src/main/java/com/ericp/e_hub/adapters/tobuy/LinkEditAdapter.kt:13-16 | a list holding the given elements, shared by reference with whoever holds it |
| MutableLists.MutableList.Add | app/src/main/java/com/ericp/e_hub/adapters/tobuy/LinkEditAdapter.kt:31-32 | `add(x)` appends at the end |
| MutableLists.MutableList.AddFirst | app/src/main/java/com/ericp/e_hub/NotesActivity.kt:213-216 | `add(0, x)` puts x at index 0 and moves the others up by one |
| MutableLists.MutableList.AddAll | app/src/main/java/com/ericp/e_hub/adapters/PhotoAdapter.kt:21-23 | `addAll(xs)` appends xs in order |
| MutableLists.MutableList.Clear | app/src/main/java/com/ericp/e_hub/adapters/PhotoAdapter.kt:15-16 | `clear()` empties the list |
| MutableLists.MutableList.RemoveAt | app/src/main/java/com/ericp/e_hub/adapters/tobuy/LinkEditAdapter.kt:38 | `removeAt(i)` on an index: the elements before stay, the ones after move down |
| MutableLists.MutableList.Set | app/src/main/java/com/ericp/e_hub/adapters/tobuy/LinkEditAdapter.kt:85 | `this[i] = x` on an index changes that element only |
| MutableLists.RemovedAt | app/src/main/java/com/ericp/e_hub/adapters/tobuy/LinkEditAdapter.kt:38 | the list without index i: same order, one shorter |
| MutableLists.InsertedAt | app/src/main/java/com/ericp/e_hub/NotesActivity.kt:215 | the list with x inserted at index i, the other elements in order |
| MutableLists.InsertRemovedAt | app/src/main/java/com/ericp/e_hub/adapters/tobuy/LinkEditAdapter.kt:38 | removal loses exactly the removed element: putting it back restores the list, and the multiset loses only that element |
| MutableLists.RemoveInRange | app/src/main/java/com/ericp/e_hub/adapters/tobuy/LinkEditAdapter.kt:36-42 | a position outside the list changes nothing; an index is removed and putting its element back restores the list, so the rest keep their relative order |
| MutableLists.ReplaceInRange | app/src/main/java/com/ericp/e_hub/adapters/tobuy/LinkEditAdapter.kt:83-87 | only index p changes, and only when it is an index; the length stays |
| MutableLists.ReplaceInRangeUndo | app/src/main/java/com/ericp/e_hub/adapters/tobuy/LinkEditAdapter.kt:83-87 | writing the old element back undoes a replacement |
| CategorySelection.WithoutId | app/src/main/java/com/ericp/e_hub/adapters/tobuy/CategorySelectionAdapter.kt:52 | `removeAll { it.id == id }`: at most as long, no entry with the id remains, and every entry with another id stays |
| CategorySelection.Clicked | app/src/main/java/com/ericp/e_hub/adapters/tobuy/CategorySelectionAdapter.kt:49-55 | the category's id is selected afterwards exactly when it was not before, and the entries with other ids are unchanged |
| CategorySelection.WithoutAbsentId | app/src/main/java/com/ericp/e_hub/adapters/tobuy/CategorySelectionAdapter.kt:52 | removing an id that is not selected changes nothing |
| CategorySelection.WithoutIdAppended | app/src/main/java/com/ericp/e_hub/adapters/tobuy/CategorySelectionAdapter.kt:52-54 | removing an id right after appending a category with it drops that category again |
| CategorySelection.ClickTwiceRestores | app/src/main/java/com/ericp/e_hub/adapters/tobuy/CategorySelectionAdapter.kt:49-55 | two clicks on an unselected category give back exactly the same selection |
| CategorySelection.ClickTwiceReselects | app/src/main/java/com/ericp/e_hub/adapters/tobuy/CategorySelectionAdapter.kt:49-55 | two clicks on a selected category drop its duplicates and leave it selected, at the end |
| CategorySelection.NullIdsCollide | app/src/main/java/com/ericp/e_hub/adapters/tobuy/CategorySelectionAdapter.kt:45-49 | selection goes by id alone: with a null-id category selected, a click on another null-id category deselects the first |
| CategorySelection.CategorySelectionAdapter.constructor | app/src/main/java/com/ericp/e_hub/adapters/tobuy/CategorySelectionAdapter.kt:14-17 | the adapter holds the caller's two lists themselves |
| CategorySelection.CategorySelectionAdapter.AddCategory | app/src/main/java/com/ericp/e_hub/adapters/tobuy/CategorySelectionAdapter.kt:32-35 | the category is appended to the offered ones and nothing else changes |
| CategorySelection.CategorySelectionAdapter.GetSelectedCategories | app/src/main/java/com/ericp/e_hub/adapters/tobuy/CategorySelectionAdapter.kt:37-39 | the very selection list given at construction, not a copy |
| CategorySelection.CategorySelectionAdapter.OnCategoryClick | app/src/main/java/com/ericp/e_hub/adapters/tobuy/CategorySelectionAdapter.kt:48-57 | the selection becomes the clicked selection, and the button is drawn selected exactly when the id is now selected |
| LinkEdit.LinkEditAdapter.constructor | app/src/main/java/com/ericp/e_hub/adapters/tobuy/LinkEditAdapter.kt:13-16 | the adapter holds the caller's list itself |
| LinkEdit.LinkEditAdapter.AddLink | app/src/main/java/com/ericp/e_hub/adapters/tobuy/LinkEditAdapter.kt:31-34 | the link is appended, so the list grows by one |
| LinkEdit.LinkEditAdapter.RemoveLink | app/src/main/java/com/ericp/e_hub/adapters/tobuy/LinkEditAdapter.kt:36-42 | the link at the position is removed when it is an index, and nothing happens otherwise |
| LinkEdit.LinkEditAdapter.GetLinks | app/src/main/java/com/ericp/e_hub/adapters/tobuy/LinkEditAdapter.kt:44-46 | the very list given at construction |
| LinkEdit.LinkEditAdapter.UpdateLinkAtPosition | app/src/main/java/com/ericp/e_hub/adapters/tobuy/LinkEditAdapter.kt:83-87 | only the link at the position is replaced, and only when it is an index |
| Photos.PhotoAdapter.constructor | app/src/main/java/com/ericp/e_hub/adapters/PhotoAdapter.kt:12-13 | a new adapter holds no photos |
| Photos.PhotoAdapter.GetItemCount | app/src/main/java/com/ericp/e_hub/adapters/PhotoAdapter.kt:45 | the item count is the number of photos |
| Photos.PhotoAdapter.SetPhotos | app/src/main/java/com/ericp/e_hub/adapters/PhotoAdapter.kt:15-19 | the photos become exactly the given list |
| Photos.PhotoAdapter.AddPhotos | app/src/main/java/com/ericp/e_hub/adapters/PhotoAdapter.kt:21-25 | the URIs are appended in order from the old size, which is returned as the start of the inserted range, and the count grows by their number |
| Photos.PhotoAdapter.RemovePhoto | app/src/main/java/com/ericp/e_hub/adapters/PhotoAdapter.kt:27-33 | the photo at the position is removed when it is an index, and nothing happens otherwise |
| NoteEditing.StatusAfterEdit | app/src/main/java/com/ericp/e_hub/adapters/NoteAdapter.kt:76-88 | an edit never yields DELETED; a note without a server id becomes EMPTY exactly when the new text is empty and CREATED otherwise; a saved note is UNTOUCHED exactly when the text is back to the original or empty, and EDITED otherwise |
| NoteEditing.AfterEdit | app/src/main/java/com/ericp/e_hub/adapters/NoteAdapter.kt:90-91 | the note is rewritten exactly when its text or its status changes; the rewrite takes the new text, the new status and the adapter's key and keeps id and dates; otherwise the note is returned unchanged |
| NoteEditing.AfterEditIdempotent | app/src/main/java/com/ericp/e_hub/adapters/NoteAdapter.kt:90-94 | the same text delivered twice changes the note only once, so a repeated watcher callback reports no change |
| NoteEditing.ModifiedNotes | app/src/main/java/com/ericp/e_hub/adapters/NoteAdapter.kt:136-138 | the result is no longer than the list and holds no UNTOUCHED note |
| NoteEditing.ModifiedNotesMembers | app/src/main/java/com/ericp/e_hub/adapters/NoteAdapter.kt:136-138 | a note is in the result exactly when it is in the list and is not UNTOUCHED |
| NoteEditing.ModifiedNotesConcat | app/src/main/java/com/ericp/e_hub/adapters/NoteAdapter.kt:136-138 | filtering distributes over concatenation, so the filter keeps the list's order |
| NoteEditing.NoteAdapter.constructor | app/src/main/java/com/ericp/e_hub/adapters/NoteAdapter.kt:22-28 | the adapter holds the caller's list by reference, and the key |
| NoteEditing.NoteAdapter.AfterTextChanged | app/src/main/java/com/ericp/e_hub/adapters/NoteAdapter.kt:69-94 | NO_POSITION leaves the list alone and reports no change; otherwise only the note at the position is replaced, by the edit rule, and the change is reported exactly when the note changed |
| NoteEditing.NoteAdapter.GetModifiedNotes | app/src/main/java/com/ericp/e_hub/adapters/NoteAdapter.kt:136-138 | returns the notes of the shared list that are not UNTOUCHED, in order |
| NotesScreen.NotesToSave | app/src/main/java/com/ericp/e_hub/NotesActivity.kt:192-194 | the result is no longer than the candidates and every note in it has something to send |
| NotesScreen.NotesToSaveMembers | app/src/main/java/com/ericp/e_hub/NotesActivity.kt:192-194 | a note is kept exactly when it is a candidate that is neither EMPTY nor an empty note without id; `Savable` is that test |
| NotesScreen.RequestFor | app/src/main/java/com/ericp/e_hub/NotesActivity.kt:197-208 | a note produces a call exactly when it is CREATED, EDITED or DELETED; the call carries the note and is create, edit or delete to match the status |
| NotesScreen.RequestsMembers | app/src/main/java/com/ericp/e_hub/NotesActivity.kt:196-209 | a call is in a save pass exactly when some note of the pass asks for it; `Requests` models the loop over the pass |
| NotesScreen.DeletionsAreSaved | app/src/main/java/com/ericp/e_hub/NotesActivity.kt:191-195 | when a deletion is queued the save pass is never empty, so the early return cannot drop a queued deletion |
| NotesScreen.WithBlankOnTop | app/src/main/java/com/ericp/e_hub/NotesActivity.kt:213-216 | the result is non-empty with an empty note on top; a blank note is inserted at index 0 exactly when the list is empty or its top note has text, and otherwise the list is unchanged; `NeedsBlankOnTop` is that test |
| NotesScreen.WithBlankOnTopIdempotent | app/src/main/java/com/ericp/e_hub/NotesActivity.kt:213-216 | a second save pass never stacks a second blank note |
| NotesScreen.Tracked | app/src/main/java/com/ericp/e_hub/NotesActivity.kt:123-125 | a swiped note is queued exactly when it has an id and is not already DELETED, and then as a copy marked DELETED with the current key; the queue stays made of DELETED saved notes |
| NotesScreen.CreatedNotBeforeIsTotalPreorder | app/src/main/java/com/ericp/e_hub/NotesActivity.kt:268 | ordering notes by their created stamp, a null read as "", is total and transitive, so the sort is well defined |
| NotesScreen.NewestFirst | app/src/main/java/com/ericp/e_hub/NotesActivity.kt:268 | the fetched notes, same multiset, in descending order of created stamp |
| NotesScreen.WithKey | app/src/main/java/com/ericp/e_hub/NotesActivity.kt:269-272 | same length, and each note is the corresponding note with only its key replaced |
| NotesScreen.FirstWithId | app/src/main/java/com/ericp/e_hub/NotesActivity.kt:91 | the index of the first note with the id, no earlier one having it, or the length when none does |
| NotesScreen.OriginalContent | app/src/main/java/com/ericp/e_hub/NotesActivity.kt:85-96 | "" for a position out of range or a note without id; otherwise a non-empty answer is the content of a fetched note with the same id, and when some fetched note has the id the answer is the content of the first such note |
| NotesScreen.NotesActivity.constructor | app/src/main/java/com/ericp/e_hub/NotesActivity.kt:78-80 | an empty note list shared with a fresh adapter that uses the same key, no queued deletions, no originals |
| NotesScreen.NotesActivity.OnSwiped | app/src/main/java/com/ericp/e_hub/NotesActivity.kt:114-125 | a position out of range changes nothing; otherwise the note is removed from the shown list and the deletion queue grows by what the swipe tracks |
| NotesScreen.NotesActivity.OnTextChanged | app/src/main/java/com/ericp/e_hub/NotesActivity.kt:81-96 | the adapter's edit rule is applied at the position with that note's original content, and nothing else in the list changes |
| NotesScreen.NotesActivity.AutoSaveNotes | app/src/main/java/com/ericp/e_hub/NotesActivity.kt:190-216 | the calls are those of the modified notes plus queued deletions that have something to send; the queue is empty afterwards; the list gets the blank-note rule unless there was nothing to send |
| NotesScreen.NotesActivity.OnNotesFetched | app/src/main/java/com/ericp/e_hub/NotesActivity.kt:266-272 | the list becomes a blank note on top of the fetched notes newest first with the current key, and the originals become the fetched notes with that key |
| Cache.TtlMillis | app/src/main/java/com/ericp/e_hub/cache/ApiCache.kt:59 | the lifetime is 86,400,000 ms (24 hours) by default, and the given hours times 3,600,000 ms otherwise |
| Cache.Lookup | app/src/main/java/com/ericp/e_hub/cache/ApiCache.kt:71-84 | `get` answers exactly when the key is present and not more than its lifetime has passed, and then answers the stored data; `Expired` is "strictly more than the lifetime has passed" |
| Cache.AfterGet | app/src/main/java/com/ericp/e_hub/cache/ApiCache.kt:76-80 | after `get` the key is still indexed exactly when `get` answered; every other key keeps its entry |
| Cache.PutThenGet | app/src/main/java/com/ericp/e_hub/cache/ApiCache.kt:57-84 | a stored value reads back at any time from the store up to its lifetime, the last millisecond included |
| Cache.PutThenGetExpired | app/src/main/java/com/ericp/e_hub/cache/ApiCache.kt:57-81 | once its lifetime is over a stored value reads as null and the read evicts it |
| Cache.PutKeepsOthers | app/src/main/java/com/ericp/e_hub/cache/ApiCache.kt:67 | storing under one key changes no answer for any other key |
| Cache.AfterGetInvisible | app/src/main/java/com/ericp/e_hub/cache/ApiCache.kt:76-80 | the eviction done by a read changes no answer at that time, for any key |
| Cache.ExpiredStays | app/src/main/java/com/ericp/e_hub/cache/ApiCache.kt:76 | an expired entry stays expired as the clock moves on, so the eviction never loses a value that could still be read |
| Cache.ApiCache.constructor | app/src/main/java/com/ericp/e_hub/cache/ApiCache.kt:34-45 | the cache starts from the index already stored |
| Cache.ApiCache.Put | app/src/main/java/com/ericp/e_hub/cache/ApiCache.kt:57-69 | the key holds a new entry stamped now, with the data and the lifetime, overwriting any earlier one; nothing else changes; `Stored` is the new index |
| Cache.ApiCache.Get | app/src/main/java/com/ericp/e_hub/cache/ApiCache.kt:71-84 | answers as the lookup says and leaves the index as the eviction rule says |
| Cache.ApiCache.Contains | app/src/main/java/com/ericp/e_hub/cache/ApiCache.kt:86-88 | true exactly when `get` would answer, with the same eviction as a side effect |
| Cache.ApiCache.Remove | app/src/main/java/com/ericp/e_hub/cache/ApiCache.kt:90-94 | only the given key leaves the index |
| Cache.ApiCache.Clear | app/src/main/java/com/ericp/e_hub/cache/ApiCache.kt:96-103 | the index is empty and every key reads as missing at every time |
| ApiKeys.ParamLeqTotalOrder | app/src/main/java/com/ericp/e_hub/network/ApiManager.kt:105 | the order used for the parameters is total, transitive and antisymmetric |
| ApiKeys.SortedParams | app/src/main/java/com/ericp/e_hub/network/ApiManager.kt:105 | the same parameters, in ascending order |
| ApiKeys.SortedParamsNamesAscend | app/src/main/java/com/ericp/e_hub/network/ApiManager.kt:105 | for the entries of a map, the names come out strictly ascending |
| ApiKeys.DistinctInMultiset | app/src/main/java/com/ericp/e_hub/network/ApiManager.kt:105 | any reordering of a map's entries still has no repeated name |
| ApiKeys.MultiplicityOne | app/src/main/java/com/ericp/e_hub/network/ApiManager.kt:105 | in a list of entries with distinct names every entry occurs exactly once |
| ApiKeys.ParamTexts | app/src/main/java/com/ericp/e_hub/network/ApiManager.kt:106 | one `name=value` text per parameter, in order |
| ApiKeys.GenerateCacheKey | app/src/main/java/com/ericp/e_hub/network/ApiManager.kt:99-108 | the key always starts with `method_endpoint`, and is exactly that base when and only when there are no parameters; `BaseKey` is `method_endpoint` |
| ApiKeys.CacheKeyParams | app/src/main/java/com/ericp/e_hub/network/ApiManager.kt:104-107 | with parameters, the base is followed by `?`, and when no name or value holds `&` the rest splits at `&` back into the sorted `name=value` pairs |
| ApiKeys.CacheKeyIgnoresOrder | app/src/main/java/com/ericp/e_hub/network/ApiManager.kt:105 | the key does not depend on the order in which the parameters were given |
| ApiKeys.AuthHeader | app/src/main/java/com/ericp/e_hub/network/ApiManager.kt:110-114 | no header exactly when the API key is null or blank; otherwise `Bearer ` followed by the key |
| Prefs.Preferences.constructor | app/src/main/java/com/ericp/e_hub/config/ApiConfig.kt:17-18 | the preference file opens with the strings already stored in it |
| Prefs.Preferences.GetString | app/src/main/java/com/ericp/e_hub/config/ApiConfig.kt:21-31 | the stored string for a present key, the caller's default for a missing one |
| Prefs.Preferences.PutString | app/src/main/java/com/ericp/e_hub/config/ApiConfig.kt:25-27 | the key maps to the new value and every other key keeps its value |
| Prefs.Preferences.Remove | app/src/main/java/com/ericp/e_hub/config/NextCloudConfig.kt:70-73 | exactly the given keys leave the file |
| ApiSettings.ApiConfig.constructor | app/src/main/java/com/ericp/e_hub/config/ApiConfig.kt:7-18 | a new config reads the shared preference file and starts authorized |
| ApiSettings.ApiConfig.GetApiKey | app/src/main/java/com/ericp/e_hub/config/ApiConfig.kt:20-22 | null exactly when no key is stored, and otherwise the stored key |
| ApiSettings.ApiConfig.SetApiKey | app/src/main/java/com/ericp/e_hub/config/ApiConfig.kt:24-28 | only the API key entry changes, and reading the key back gives the one set |
| ApiSettings.ApiConfig.GetServerUrl | app/src/main/java/com/ericp/e_hub/config/ApiConfig.kt:30-32 | the default server URL when none is stored, and otherwise the stored one |
| ApiSettings.ApiConfig.SetServerUrl | app/src/main/java/com/ericp/e_hub/config/ApiConfig.kt:34-39 | only the URL entry changes, to the URL without one trailing slash; reading it back and putting the slash back, if there was one, gives the URL given |
| ApiSettings.ApiConfig.IsApiKeyConfigured | app/src/main/java/com/ericp/e_hub/config/ApiConfig.kt:41-43 | true exactly when a key is stored and is not blank, which is exactly when requests get an authorization header |
| ApiSettings.ApiConfig.SetAuthorized | app/src/main/java/com/ericp/e_hub/config/ApiConfig.kt:45-51 | the flag takes the value, in this object only; the preference file is not touched |
| Strings.DropTrailingSlash | app/src/main/java/com/ericp/e_hub/config/ApiConfig.kt:35 | a URL ending in `/` loses exactly that one slash, any other URL is kept |
| Strings.DropTrailingSlashAppended | app/src/main/java/com/ericp/e_hub/config/ApiConfig.kt:35 | dropping undoes appending one slash, so of two trailing slashes one stays |
| NextCloudSettings.NormalizedEndpoint | app/src/main/java/com/ericp/e_hub/config/NextCloudConfig.kt:32-39 | the result starts and ends with `/`, is the endpoint with at most one slash added at each end, is `/` for the empty endpoint, and is the endpoint itself when it already has both slashes |
| NextCloudSettings.NormalizedEndpointIdempotent | app/src/main/java/com/ericp/e_hub/config/NextCloudConfig.kt:32-43 | normalising twice is normalising once |
| NextCloudSettings.NextCloudConfig.constructor | app/src/main/java/com/ericp/e_hub/config/NextCloudConfig.kt:6-15 | the config reads its own preference file |
| NextCloudSettings.NextCloudConfig.GetServerUrl | app/src/main/java/com/ericp/e_hub/config/NextCloudConfig.kt:17-19 | the stored server URL, or "" when none is stored |
| NextCloudSettings.NextCloudConfig.SetServerUrl | app/src/main/java/com/ericp/e_hub/config/NextCloudConfig.kt:21-26 | only the URL entry changes, to the URL without one trailing slash, and reads back as such |
| NextCloudSettings.NextCloudConfig.GetWebdavEndpoint | app/src/main/java/com/ericp/e_hub/config/NextCloudConfig.kt:28-30 | the stored endpoint, or `/remote.php/dav/files/` when none is stored |
| NextCloudSettings.NextCloudConfig.SetWebdavEndpoint | app/src/main/java/com/ericp/e_hub/config/NextCloudConfig.kt:32-43 | only the endpoint entry changes, to the normalised endpoint; it then reads back starting and ending with `/`, and whether the settings count as configured does not change |
| NextCloudSettings.NextCloudConfig.GetUsername | app/src/main/java/com/ericp/e_hub/config/NextCloudConfig.kt:45-47 | the stored user name, or "" when none is stored |
| NextCloudSettings.NextCloudConfig.SetUsername | app/src/main/java/com/ericp/e_hub/config/NextCloudConfig.kt:49-53 | only the user name entry changes; it reads back as given and the password is unchanged |
| NextCloudSettings.NextCloudConfig.GetPassword | app/src/main/java/com/ericp/e_hub/config/NextCloudConfig.kt:55-57 | the stored password, or "" when none is stored |
| NextCloudSettings.NextCloudConfig.SetPassword | app/src/main/java/com/ericp/e_hub/config/NextCloudConfig.kt:59-63 | only the password entry changes; it reads back as given and the user name is unchanged |
| NextCloudSettings.NextCloudConfig.IsConfigured | app/src/main/java/com/ericp/e_hub/config/NextCloudConfig.kt:65-67 | true exactly when server URL, user name and password are all non-blank, which needs all three stored; the endpoint plays no part |
| NextCloudSettings.NextCloudConfig.ClearCredentials | app/src/main/java/com/ericp/e_hub/config/NextCloudConfig.kt:69-74 | exactly the user name and password entries leave the file; both then read as "", the settings are no longer configured, and server URL and endpoint read as before |
| Strings.NatToString | app/src/main/java/com/ericp/e_hub/nonogram/GameTimer.kt:37-43 | the decimal text of a number is at least one digit long and has no leading zero |
| Strings.NatToStringValue | app/src/main/java/com/ericp/e_hub/nonogram/GameTimer.kt:37-43 | reading back the digits of a number gives the number |
| Strings.ParseInt | app/src/main/java/com/ericp/e_hub/ToBuyActivity.kt:284 | `toIntOrNull()` only ever answers a value within the 32-bit Int range |
| Strings.ParseIntToString | app/src/main/java/com/ericp/e_hub/ToBuyActivity.kt:252 | parsing the printed form of any 32-bit Int gives the Int back, so a year printed as an option is read back unchanged when selected |
| Strings.ParseNegative | app/src/main/java/com/ericp/e_hub/ToBuyActivity.kt:252 | a minus sign followed by the digits of a magnitude up to 2^31 parses to the negative number, Int.MIN_VALUE included |
| Strings.TrimStart | app/src/main/java/com/ericp/e_hub/ToBuyActivity.kt:221 | the result is a suffix of the string, only whitespace was removed, and it does not start with whitespace |
| Strings.TrimEnd | app/src/main/java/com/ericp/e_hub/ToBuyActivity.kt:221 | the result is a prefix of the string, only whitespace was removed, and it does not end with whitespace |
| Strings.Trim | app/src/main/java/com/ericp/e_hub/ToBuyActivity.kt:221 | the result is a contiguous part of the string with only whitespace before and after it, and neither starts nor ends with whitespace |
| Strings.TrimBlank | app/src/main/java/com/ericp/e_hub/ToBuyActivity.kt:221 | trimming gives "" exactly for a blank string, and trimming twice is trimming once |
| Strings.TrimStartBlank | app/src/main/java/com/ericp/e_hub/ToBuyActivity.kt:221 | dropping leading whitespace gives "" exactly for a blank string |
| Strings.TrimEndBlank | app/src/main/java/com/ericp/e_hub/ToBuyActivity.kt:221 | dropping trailing whitespace gives "" exactly for a blank string |
| Strings.Lower | app/src/main/java/com/ericp/e_hub/ToBuyActivity.kt:385-396 | same length, each character lower-cased |
| Strings.LowerIdempotent | app/src/main/java/com/ericp/e_hub/ToBuyActivity.kt:385-396 | lower-casing twice is lower-casing once |
| Strings.Upper | app/src/main/java/com/ericp/e_hub/ToDoActivity.kt:260-278 | same length, each character upper-cased |
| Strings.FindFrom | app/src/main/java/com/ericp/e_hub/ToBuyActivity.kt:349 | a found position is at or after the start and has a case-insensitive match; no position from the start on matches when none is found |
| Strings.FindFromContains | app/src/main/java/com/ericp/e_hub/ToBuyActivity.kt:349 | the search from position 0 finds a match exactly when the text contains the query ignoring case |
| Strings.ContainsEmpty | app/src/main/java/com/ericp/e_hub/ToBuyActivity.kt:349 | every text contains the empty query |
| Strings.ContainsCaseInsensitive | app/src/main/java/com/ericp/e_hub/ToBuyActivity.kt:349 | containment ignoring case is unchanged by lower-casing either side |
| Strings.Repeat | app/src/main/java/com/ericp/e_hub/NonogramActivity.kt:187 | `repeat(k)` has k times the length |
| Strings.IndexOf | app/src/main/java/com/ericp/e_hub/NonogramActivity.kt:188-212 | the first occurrence of a character, none before it, or the length when there is none |
| Strings.IndexOfAfter | app/src/main/java/com/ericp/e_hub/NonogramActivity.kt:188-212 | the first occurrence of a separator right after a part free of it is at the part's length |
| Strings.Split | app/src/main/java/com/ericp/e_hub/NonogramActivity.kt:188-212 | splitting always yields at least one part |
| Strings.SplitJoin | app/src/main/java/com/ericp/e_hub/NonogramActivity.kt:188-212 | `joinToString` with a one-character separator is undone by splitting at it, provided no part holds the separator |
| Strings.StrLeqTotal | app/src/main/java/com/ericp/e_hub/NotesActivity.kt:268 | any two strings are comparable |
| Strings.StrLeqTransitive | app/src/main/java/com/ericp/e_hub/NotesActivity.kt:268 | string comparison is transitive |
| Strings.StrLeqAntisymmetric | app/src/main/java/com/ericp/e_hub/NotesActivity.kt:268 | two strings each not after the other are equal |
| Strings.StrLeqTotalOrder | app/src/main/java/com/ericp/e_hub/NotesActivity.kt:268 | `String.compareTo` is a total order |
| Sorting.Insert | app/src/main/java/com/ericp/e_hub/ToDoActivity.kt:705 | inserting adds exactly the one element |
| Sorting.InsertSorted | app/src/main/java/com/ericp/e_hub/ToDoActivity.kt:705 | inserting into a sorted list under a total preorder keeps it sorted |
| Sorting.SortBy | app/src/main/java/com/ericp/e_hub/ToDoActivity.kt:705 | `sortedBy` returns a permutation of its input |
| Sorting.SortBySorted | app/src/main/java/com/ericp/e_hub/ToDoActivity.kt:705 | under a total preorder the result is sorted |
| Sorting.SortedTail | app/src/main/java/com/ericp/e_hub/ToDoActivity.kt:705 | the tail of a sorted list is sorted |
| Sorting.MultisetTail | app/src/main/java/com/ericp/e_hub/ToDoActivity.kt:705 | the tail holds all elements but the head |
| Sorting.SortedHeadsEqual | app/src/main/java/com/ericp/e_hub/network/ApiManager.kt:105 | under a total order two sorted permutations of each other start with the same element |
| Sorting.SortedUnique | app/src/main/java/com/ericp/e_hub/network/ApiManager.kt:105 | under a total order two sorted permutations of each other are equal |
| Sorting.SortByPermutationInvariant | app/src/main/java/com/ericp/e_hub/network/ApiManager.kt:105 | under a total order, sorting gives the same list for any reordering of the input |

## Left out

- Android views, adapters' view holders, dialogs, animations, toasts, haptic feedback and `notify…` calls are not modelled. Where a handler redraws, the model states the rows or texts the redraw shows.
- The network is not modelled: requests, their callbacks and `submitGameData`. A save pass returns the calls it would make (`NotesScreen.Request`), and fetched data arrives as a parameter. The success callbacks of note creation and editing, which mark a note UNTOUCHED later, are not modelled.
- Clocks and randomness are parameters. The fill probability of a random grid is not modelled: a coin function decides each cell, and an index picks the fallback pattern.
- Date parsing and formatting are not modelled. To-do `created`/`modified` times are integer keys. The to-buy `parseTimestamp` is a function passed in. The note editor's "Updated"/"Created" line, the to-do header's formatted time and the timer's wall-clock `HH:mm` text are not modelled.
- Persistence is not modelled: SharedPreferences, the cache's index file and its Gson encoding. The preference file is a string map, and the cache index is the `index` field. File errors, which the source swallows, are not modelled.
- Scheduling is not modelled: the timer's `Handler` tick, the notes auto-save debounce and the delayed restart after a solved puzzle. Each is a method the caller invokes.
- Case mapping covers ASCII letters only. Kotlin's `lowercase()`, `uppercase()` and `ignoreCase` follow Unicode.
- Strings.ParseInt: accepts ASCII digits only. Kotlin's `toIntOrNull` also accepts the other Unicode decimal digits (`Character.digit`), so a year written in, say, Arabic-Indic digits parses in the app but not in the model (`extractYear` and the year spinner).
- Timer.Pad2: prints ASCII digits. `String.format(Locale.getDefault(), "%02d:%02d:%02d", …)` (GameTimer.kt:37-43) prints each digit with the default locale's zero digit, so under a locale such as Arabic with Arabic-Indic digits the app shows non-ASCII digits where the model shows `0`–`9`.
- Timer.GameTimer.Display: its text is built with Timer.Pad2, so it also always shows ASCII digits, whatever the default locale.
- Strings.StrLeq: compares Unicode code points, while Kotlin's `String.compareTo` compares UTF-16 code units. The two orders differ between a supplementary character and one in U+E000–U+FFFF; elsewhere they agree.
- Kotlin `Long` arithmetic is unbounded in the model: timer millis, cache timestamps and the TTL product `hours * 3,600,000`. Only the `Int` conversions the source makes are wrapped to 32 bits (`KotlinInt.ToInt32`, `ToBuyScreen.Total`).
- ApiKeys.GenerateCacheKey: parameter values are taken as already rendered text. Kotlin's `toString()` of an arbitrary `Any` is not modelled.
- NonogramGame.Game.GenerateNewPuzzle: requires `gridSize <= 5`. The fallback pattern is cropped from a 5x5 pattern, which the source indexes out of bounds for a larger grid. Acceptance of the generated puzzle is proved only for `gridSize == 5` (`NonogramGame.GeneratedIsAcceptable`), because a smaller crop can miss the 6..20 clue-count range.
- NonogramGame.Game.CreateSimplePuzzle: requires `gridSize <= 5` for the same reason.
- ToDoScreen.ToDoActivity.Render: the header carries the corrected latest time (`Latest`). The app as written shows the last time its walk visits (`LatestAsWritten`); see "## Findings".
- ToDoScreen.Flatten: the to-do walks carry a `fuel` bound on their depth. These are flattening, seeding the collapsed set and the header time. Their contracts hold for any fuel. The screen passes the number of tasks and pending tasks, which a walk over a tree never exceeds. Pending tasks that formed a cycle would make the source loop forever; that cannot happen, since their ids are fresh UUIDs.
- Sorting.SortBy: the contract states permutation and order only. Stability (equal elements keep their input order), which Kotlin's sort guarantees, is how the insertion is written but is not stated.
- The to-do handlers `onToggleTask`, `onOpenDetails`, `onSwitchRoot`, `loadData`, `submitNewRoot`/`createRootLocallyAndSync` and the swipe-to-delete are not modelled, nor is the error path of `onAddTask`: each is driven by a request callback, a dialog or an animation. What they do to the screen's state:
  - `onToggleTask` and the save of `onOpenDetails`'s dialog set overrides, which the modelled `applyOverrides` reads, and start a request whose failure restores the previous overrides. A delete from the dialog moves the selection off the deleted task.
  - `onSwitchRoot` selects the root as root and parent, clears the closed flag, re-seeds the collapsed set and re-renders, after an animation.
  - `loadData` replaces the roots with the fetched parentless tasks newest first. When no root is selected and the user has not closed one, it opens the first root and re-seeds the collapsed set.
  - `createRootLocallyAndSync` inserts a local root, re-sorts the roots, selects the new root, clears the closed flag and re-seeds the collapsed set. It removes that root again when the request fails.
  - The swipe-to-delete deletes a root on the server after a confirmation, clears the selection when that root was open, and refreshes.
- The to-buy screen's spinner `setSelection`, the sort-button styling, the context menu and the details screen are view code. `createPastelColor` is floating-point colour and is not modelled.
- Empty-state and manage-button visibility toggles are not modelled.
- The notes screen's start-up loop that rewrites every note's key is not modelled. The key is a constant of the screen object, and notes get it where the source sets it. `ApiConfig.getSecretKey`, which is not part of this model, is a parameter.
- `isNetworkAvailable` and the cached-error paths of `ApiManager.get`/`post` are not modelled.

## Findings

| source | as written | input that shows it | evidently intended | confidence | as-written member | corrected member |
|---|---|---|---|---|---|---|
| app/src/main/java/com/ericp/e_hub/ToDoActivity.kt:665-696 | `computeLatestTimestampIso` never assigns `best`, so it returns the candidate of the last node its pre-order walk visits | a root created at 5 with one child created at 1, nothing modified: the header shows 1 | the latest of the root's and its descendants' times, here 5 | high, not executed | ToDoScreen.LatestAsWrittenShowsLastVisited | ToDoScreen.Latest |
