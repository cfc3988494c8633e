# Memory game engine — Dafny model

This project models the game-state engine of a tile-matching memory game. The engine sets up a level:
- it grows the cell count by four;
- it picks the most square board shape for that count;
- it lays a shuffled list, in which every picture index occurs twice, onto the board face up.

After the preview the engine turns every cell face down. It then resolves the player's picks turn by turn. The first pick opens a cell. The second pick either matches the pair (+1 point) or leaves it open (−1 point). The next pick closes the unmatched guesses and opens a new cell. When every pair is found, the board is locked (corrected; see Findings) and a "game won" event is sent. The state is an immutable record, `GameState`, whose hand-written `equals`/`hashCode` leave out `previewMode`.

Modules:
- `Cells` (cells.dfy): the cell status and the cell value.
- `Factors` (factors.dfy): `closestFactors` with an integer square root.
- `Boards` (boards.dfy):
  - the paired list;
  - `createGameBoard`, a nested loop filling an `array2<Cell>`;
  - reading a board back as a list;
  - the set of board positions.
- `States` (game_state.dfy):
  - the `GameState` record with its defaults;
  - `equals`, `hashCode` with 32-bit wrap-around;
  - the "store only if not equal" rule of the state holder.
- `Invariant` (invariant.dfy):
  - the engine invariant `Consistent`;
  - the two-state predicates that describe each branch of `guess`;
  - the lemmas showing each branch keeps the invariant.
- `Scenario` (scenario.dfy): a whole first level played through the public operations, from a new engine to the win.
- `Manager` (game_manager.dfy): the class `GameManager`. Its `state` field is replaced record by record, as the state holder's value is, while the board's cells are written in place. The board is the shared row arrays that `items.copyOf()` leaves shared.

The invariant `Consistent` (kept by every method, as `Valid()`) states the following:
- The board is `rowCount × columnCount` and `itemsCount` is their (even) product.
- The board holds, row-major, a list in which every value `0 .. itemsCount/2-1` occurs exactly twice and nothing else occurs.
- Each cell knows its own coordinates.
- The stored guesses are never stale copies.
- `foundCount` is half the number of matched cells.
- Outside preview mode at least one pair is still unmatched.
- While the preview's end is pending every cell is Opened.

## Model

| member | source | states |
|---|---|---|
| Factors.FloorSqrt | composeApp/src/commonMain/kotlin/co/fe/memorygame/GameManager.kt:187 | the integer square root standing in for `sqrt(number.toDouble()).toInt()`: `r*r <= n < (r+1)*(r+1)` for `n >= 0`, and 0 below 1 |
| Factors.FactorSearch | composeApp/src/commonMain/kotlin/co/fe/memorygame/GameManager.kt:188-194 | the downward search returns the first divisor `x` met, paired with `number / x`, and no divisor between it and the start was skipped; `(0, 0)` only when none was found |
| Factors.ClosestFactors | composeApp/src/commonMain/kotlin/co/fe/memorygame/GameManager.kt:186-195 | for `n >= 1`: `x * y == n`, `1 <= x <= y`, and no divisor of `n` lies strictly between `x` and the square root; `(0, 0)` exactly when `n < 1` |
| Factors.SearchFromRoot | composeApp/src/commonMain/kotlin/co/fe/memorygame/GameManager.kt:187-191 | starting at the floor of the square root, the first divisor found is at most its cofactor |
| Factors.ClosestFactorsMostSquare | composeApp/src/commonMain/kotlin/co/fe/memorygame/GameManager.kt:186-195 | every factorisation `a * b == n` with `a <= b` has `a <= x`, `y <= b` and `y - x <= b - a`: the result is the most square board |
| Factors.ClosestFactorsExamples | composeApp/src/commonMain/kotlin/co/fe/memorygame/GameManager.kt:186-195 | the board shapes of the first levels: 4 → 2×2, 6 → 2×3, 8 → 2×4, 12 → 3×4, 20 → 4×5 |
| Boards.PairedValues | composeApp/src/commonMain/kotlin/co/fe/memorygame/GameManager.kt:62-65 | the list of pairs has `2 * k` entries |
| Boards.PairedValuesCount | composeApp/src/commonMain/kotlin/co/fe/memorygame/GameManager.kt:62-65 | every value `0 .. k-1` occurs exactly twice in the list of pairs and no other value occurs |
| Boards.ShuffledPairs | composeApp/src/commonMain/kotlin/co/fe/memorygame/GameManager.kt:67 | a list is a permutation of the pairs list exactly when it holds each value `0 .. k-1` twice and nothing else, and then it has `2 * k` entries |
| Boards.BoardShape | composeApp/src/commonMain/kotlin/co/fe/memorygame/GameManager.kt:56-57 | the shape chosen for a positive count, rows times columns, covers exactly that many cells |
| Boards.MulIsProduct | composeApp/src/commonMain/kotlin/co/fe/memorygame/GameManager.kt:137 | the repeated-addition product used for row starts equals `rowCount * columnCount` |
| Boards.CreateGameBoard | composeApp/src/commonMain/kotlin/co/fe/memorygame/GameManager.kt:197-207 | a fresh `rowCount × columnCount` board whose cell `(r, c)` is `Cell(status, gameItems[r*columnCount + c], c, r)`, given at least `rowCount*columnCount` items |
| Boards.BoardValuesAreLayout | composeApp/src/commonMain/kotlin/co/fe/memorygame/GameManager.kt:197-207 | a board laid out from a list reads back, row by row, as exactly that list |
| Boards.EveryValueTwice | composeApp/src/commonMain/kotlin/co/fe/memorygame/GameManager.kt:62-74 | a board laid out from a shuffled pairs list holds each value `0 .. k-1` in exactly two cells and no other value |
| Boards.GridSize | composeApp/src/commonMain/kotlin/co/fe/memorygame/GameManager.kt:137 | a `rowCount × columnCount` board has `rowCount * columnCount` positions |
| Boards.FullGrid | composeApp/src/commonMain/kotlin/co/fe/memorygame/GameManager.kt:137 | a set of board positions covers the board exactly when it has `rowCount * columnCount` elements, and never has more |
| States.EqualsReflexive | composeApp/src/commonMain/kotlin/co/fe/memorygame/GameState.kt:18 | a state equals itself |
| States.EqualsIffFieldsAgree | composeApp/src/commonMain/kotlin/co/fe/memorygame/GameState.kt:17-35 | two states are equal exactly when the ten compared fields agree, with the boards compared by dimensions and cell by cell |
| States.PreviewModeIgnored | composeApp/src/commonMain/kotlin/co/fe/memorygame/GameState.kt:17-35 | states that differ only in `previewMode` are equal, in both orders |
| States.EqualsSymmetric | composeApp/src/commonMain/kotlin/co/fe/memorygame/GameState.kt:17-35 | `equals` is symmetric |
| States.EqualsTransitive | composeApp/src/commonMain/kotlin/co/fe/memorygame/GameState.kt:17-35 | `equals` is transitive |
| States.Int32 | composeApp/src/commonMain/kotlin/co/fe/memorygame/GameState.kt:37-49 | Kotlin `Int` arithmetic: the result is in the 32-bit range and congruent to the exact value modulo 2^32 |
| States.BoardHashByContent | composeApp/src/commonMain/kotlin/co/fe/memorygame/GameState.kt:44 | boards with equal contents have equal `contentDeepHashCode` |
| States.HashCodeConsistent | composeApp/src/commonMain/kotlin/co/fe/memorygame/GameState.kt:37-49 | equal states (whatever their `previewMode`) have equal `hashCode` |
| States.CellChangeStored | composeApp/src/commonMain/kotlin/co/fe/memorygame/GameManager.kt:47 | the state holder stores an update whole when its board differs from the current one in some cell |
| States.NewLevelStored | composeApp/src/commonMain/kotlin/co/fe/memorygame/GameManager.kt:47 | the state holder stores an update whole when it moves to another level |
| States.WinLockDropped | composeApp/src/commonMain/kotlin/co/fe/memorygame/GameManager.kt:137-142 | as written, the lock update `copy(previewMode = true)` is never stored: preview mode stays off (see Findings) |
| States.MoveUpdateStored | composeApp/src/commonMain/kotlin/co/fe/memorygame/GameManager.kt:148-156 | an update that changes a stored guess, as every update of `guess` does, is stored whole by the state holder |
| Invariant.FreshBoardConsistent | composeApp/src/commonMain/kotlin/co/fe/memorygame/GameManager.kt:69-91 | a freshly laid out board from a shuffled pairs list, with no guesses and nothing found, satisfies the engine invariant |
| Invariant.LevelStartedConsistent | composeApp/src/commonMain/kotlin/co/fe/memorygame/GameManager.kt:69-82 | the snapshot a new level stores (a most square board laid out from a shuffled pairs list, face up, nothing found) satisfies the engine invariant with the preview's end pending |
| Invariant.FirstPickedKeeps | composeApp/src/commonMain/kotlin/co/fe/memorygame/GameManager.kt:102-113 | the first pick of a turn keeps the engine invariant, with the matched positions unchanged |
| Invariant.PairResolvedKeeps | composeApp/src/commonMain/kotlin/co/fe/memorygame/GameManager.kt:118-156 | the second pick keeps the invariant; the matched positions grow by the pair exactly when the values agree |
| Invariant.NextTurnStartedKeeps | composeApp/src/commonMain/kotlin/co/fe/memorygame/GameManager.kt:159-181 | the pick after a full turn keeps the invariant |
| Manager.GameManager.constructor | composeApp/src/commonMain/kotlin/co/fe/memorygame/GameManager.kt:47 | the engine starts from an empty 0×0 board with the record's defaults: counters, score and level 0, no guesses, no pictures, preview mode on |
| Manager.GameManager.AllMatchedIffFound | composeApp/src/commonMain/kotlin/co/fe/memorygame/GameManager.kt:137 | under the invariant, `foundCount == rowCount*columnCount/2` holds exactly when every cell is matched, and `foundCount` never exceeds that |
| Manager.GameManager.EveryValueTwiceOnBoard | composeApp/src/commonMain/kotlin/co/fe/memorygame/GameManager.kt:62-74 | in every reachable state each value `0 .. itemsCount/2-1` sits in exactly two cells and no other value is on the board |
| Manager.GameManager.RepeatedClickIsSamePosition | composeApp/src/commonMain/kotlin/co/fe/memorygame/GameManager.kt:116 | with one guess open, a pick equals the stored first guess exactly when it is at the same position |
| Manager.GameManager.PairPictures | composeApp/src/commonMain/kotlin/co/fe/memorygame/GameManager.kt:62-65 | the loop builds `0, 0, 1, 1, …, k-1, k-1` |
| Manager.GameManager.NextLevel | composeApp/src/commonMain/kotlin/co/fe/memorygame/GameManager.kt:55-82 | the new snapshot has four more cells on the most square board, the shuffled pairs face up, the first `itemsCount/2` shuffled pictures, the next level, preview mode, no guesses, nothing found, the score kept; the state holder stores it, as it moves to another level |
| Manager.GameManager.InitGame | composeApp/src/commonMain/kotlin/co/fe/memorygame/GameManager.kt:54-93 | stores that snapshot (the state holder does not drop it) on a newly allocated board and leaves the preview's end pending, exactly when there are enough pictures; otherwise (the `subList` throw) nothing changes |
| Manager.GameManager.EndPreview | composeApp/src/commonMain/kotlin/co/fe/memorygame/GameManager.kt:84-91 | a newly allocated board with the same layout and every cell Closed, preview mode off, every other field unchanged, the invariant kept; the state holder stores it, because the preview board was all Opened |
| Manager.GameManager.Guess | composeApp/src/commonMain/kotlin/co/fe/memorygame/GameManager.kt:95-184 | no-op in preview mode, on a matched cell, on the open first guess and off the board; otherwise the first, second or next pick, stored by the state holder, on the same board; afterwards preview mode is on exactly when every cell is matched (corrected; see Findings), and `GameWon` is sent exactly when this pick won |
| Manager.GameManager.OpenFirst | composeApp/src/commonMain/kotlin/co/fe/memorygame/GameManager.kt:102-113 | the target is opened and becomes the first guess, the second guess is cleared, no other cell or field changes; the state holder stores the update |
| Manager.GameManager.ResolvePair | composeApp/src/commonMain/kotlin/co/fe/memorygame/GameManager.kt:114-157 | both cells become Match (score +1, one more pair found) when the values agree, else Opened (score −1); both become the stored guesses; the board locks and `GameWon` is sent exactly when the last pair was found; the state holder stores the move |
| Manager.GameManager.StartNextTurn | composeApp/src/commonMain/kotlin/co/fe/memorygame/GameManager.kt:159-181 | each previous guess that is not matched is closed, the target is opened and becomes the only guess, score and pair count unchanged; the state holder stores the update |
| Scenario.SetUpFirstLevel | composeApp/src/commonMain/kotlin/co/fe/memorygame/GameManager.kt:54-82 | a new engine's first level, with the pairs crossed, is a face-up 2×2 board at level 1 in preview, nothing found, score 0 |
| Scenario.EndFirstPreview | composeApp/src/commonMain/kotlin/co/fe/memorygame/GameManager.kt:84-91 | when that preview ends every cell is Closed and preview mode is off, nothing else changes |
| Scenario.FindFirstPair | composeApp/src/commonMain/kotlin/co/fe/memorygame/GameManager.kt:95-157 | top left, the same cell again (ignored), then bottom right: the first pair is matched, score 1, no event |
| Scenario.FindLastPair | composeApp/src/commonMain/kotlin/co/fe/memorygame/GameManager.kt:159-181 | top right starts a new turn with the found pair left matched, bottom left then finds the last pair: every cell matched, score 2, the board locked, exactly one `GameWon` |
| Scenario.FirstLevelWon | composeApp/src/commonMain/kotlin/co/fe/memorygame/GameManager.kt:54-184 | a new engine played through its whole first level ends at level 1 with score 2, both pairs found, the board locked and one `GameWon` sent |

## Left out

- The user interface (App.kt) is not part of this model. Its only engine-facing logic forwards a cell's column and row to `guess`.
- Coroutines and timing (`scope.launch`, dispatchers, `delay(2500)`) are left out.
  - The preview's end is the separate method `EndPreview`. It may run once per `InitGame`, tracked by `revealPending`.
  - Races are not modelled, such as a pick arriving while the board is being built.
  - A second `initGame` before the first preview has ended: the model keeps one pending `EndPreview`, for the new layout, as if the earlier continuation were cancelled. In the source nothing cancels it, and when it runs (GameManager.kt:86-91) it lays the earlier level's closed board, with its own shape, over the new state and turns preview mode off.
- The state holder (`MutableStateFlow`) is a plain field. Its only observable rule is that it drops an update equal to the current value; that rule is modelled as `States.StoreIfChanged`. Every method that updates the state ensures the holder stores its update (`StoreIfChanged(old(state), state) == state`), so only the lock update is dropped (see Findings). `EndPreview` relies on the preview board being all Opened, which the invariant records while the preview's end is pending. Broadcasting to subscribers is left out.
- The event channel is an appended sequence `events`. Delivery, and the fact that a rendezvous send with no receiver suspends forever, are left out.
- Randomness is passed in as parameters.
  - `gameItems.shuffle()` becomes the `shuffled` argument, required to be a permutation of the pairs list. `Paired` states this; `Boards.ShuffledPairs` proves it equivalent to multiset equality with the list the loop builds.
  - `IMAGES.toList().shuffled()` becomes the `imageOrder` argument: an ordering of the 24 picture indices.
- `kotlin.math.sqrt` on a `Double` is replaced by an exact integer square root. For the counts the game reaches, the two agree.
- `println(state.value)` is left out.
- `Manager.GameManager.InitGame`: the source computes the board before `subList` throws. The model checks the picture count first. Either way the stored state is unchanged.
- Any other exception leaves the state as it was: `Manager.GameManager.Guess` ignores a position off the board, where the source throws.
- `items.copyOf()` makes a new outer array whose rows are the old ones. The model writes the cells in place on one `array2`. The engine keeps no reference to the old outer array, so nothing observable differs.
- `States.HashCode` hashes statuses, strings and lists as the Kotlin library does. The three statuses are `data object`s, whose compiler-generated `hashCode` is a constant the source does not write out; they hash to the stand-in values 0, 1 and 2. Only "equal states hash equal" is claimed.
- `States.GameState`: `score`, `foundCount` and `level` are Kotlin `Int`s and would wrap past 2^31 − 1; the model counts them in unbounded `int` (a level gains four cells, so no reachable game comes near the bound). Only `hashCode` models the 32-bit wrap-around.
- `States.Equals`: the `other == null || this::class != other::class` test is left out, as the model only compares `GameState` values.
- `Manager.GameManager.EndPreview` rebuilds the board from the level's layout kept in `layout`. The source keeps the same list, and the same factor pair, in the coroutine's closure.
- The engine keeps no progress field and no cancellable preview timer, and marks a win only by `previewMode`. It stores copies of the guessed cells rather than their coordinates; `Invariant.Consistent` shows those copies are never stale.

## Findings

| source | as written | input that shows it | evidently intended | confidence | as-written member | corrected member |
|---|---|---|---|---|---|---|
| composeApp/src/commonMain/kotlin/co/fe/memorygame/GameManager.kt:137-142 | on the winning pick the lock is stored by `state.update { it.copy(previewMode = true) }`; the state holder drops a new value that `equals` the current one, and `GameState.equals` ignores `previewMode`, so the lock never takes effect and the following move update copies `previewMode = false` | any winning pick, e.g. the second cell of the last pair on a 2×2 board: before and after the lock update the states are equal, so preview mode stays off | the board is locked (preview mode on) after the last pair is found, in the same state that records the pair | not executed | States.WinLockDropped | Manager.GameManager.ResolvePair |
