/** The game-state engine: level set-up, the end of the preview and the turn resolver,
    as a class whose state field is replaced record by record while the board's cells
    are written in place. */
module Manager {
  import opened Cells
  import opened States
  import opened Factors
  import opened Boards
  import opened Invariant

  /** The one-shot events the engine sends. */
  datatype GameAction = GameWon | GameLost

  /** The picture names; a level with more pairs than pictures cannot be set up. */
  const IMAGES: seq<string> := [
    "birds_icon", "bulls_icon", "camels_icon", "cats_icon", "cows_icon", "dogs_icon",
    "ducks_icon", "elephants_icon", "fishes_icon", "giraffes_icon", "gooses_icon", "horses_icon",
    "lions_icon", "rabbits_icon", "rat_icon", "tigers_icon", "turtles_icon", "wolfs_icon",
    "monkey_icon", "husky_icon", "pig_icon", "koala_icon", "bear_icon", "goat_icon"
  ]

  /** order lists each of 0 .. n-1 exactly once: the outcome of shuffling n entries,
      entry order[j] landing at place j. */
  ghost predicate IsOrdering(order: seq<int>, n: int)
  {
    && |order| == n
    && (forall j :: 0 <= j < |order| ==> 0 <= order[j] < n)
    && (forall j, k :: 0 <= j < k < |order| ==> order[j] != order[k])
  }

  /** `IMAGES.toList().shuffled()` for the shuffle that puts entry order[j] at place j. */
  function ShuffledImages(order: seq<int>): seq<string>
    requires forall j :: 0 <= j < |order| ==> 0 <= order[j] < |IMAGES|
  {
    seq(|order|, j requires 0 <= j < |order| => IMAGES[order[j]])
  }

  class GameManager {
    /** The current snapshot (the state flow's value). */
    var state: GameState
    /** The events sent on the event channel so far. */
    var events: seq<GameAction>
    /** The shuffled list the current level's board was laid out from; the preview's
        continuation lays it out again. */
    var layout: seq<int>
    /** The preview continuation launched by InitGame has not run yet. */
    var revealPending: bool
    /** The positions of the cells whose status is Match. */
    ghost var matched: set<(int, int)>

    ghost predicate Valid()
      reads this, state.items
    {
      Consistent(state, layout, revealPending, matched)
    }

    /** The manager starts from an empty 0 x 0 board with the record's defaults:
        counters, score and level 0, no guesses, no pictures, preview mode on. */
    constructor ()
      ensures Valid() && fresh(state.items)
      ensures state.items.Length0 == 0 && state.items.Length1 == 0
      ensures state.rowCount == 0 && state.columnCount == 0 && state.itemsCount == 0
      ensures state.firstGuess == None && state.secondGuess == None
      ensures state.foundCount == 0 && state.score == 0 && state.level == 0
      ensures state.imagesList == [] && state.previewMode
      ensures events == [] && !revealPending
    {
      var empty := new Cell[0, 0];
      state := GameState(rowCount := 0, columnCount := 0, itemsCount := 0, items := empty);
      events := [];
      layout := [];
      revealPending := false;
      matched := {};
    }

    /** Every stored count agrees with the board: all cells are matched exactly when
        foundCount is half the cell count, and foundCount never exceeds it. */
    lemma AllMatchedIffFound()
      requires Valid()
      ensures 0 <= 2 * state.foundCount <= state.itemsCount
      ensures AllMatched(state.items) <==> 2 * state.foundCount == state.itemsCount
    {
      var all := Grid(state.rowCount, state.columnCount);
      FullGrid(matched, state.rowCount, state.columnCount);
      if AllMatched(state.items) {
        forall p | p in all
          ensures p in matched
        {
          assert OnBoard(state.items, p.0, p.1);
        }
      }
      if matched == all {
        forall r, c | OnBoard(state.items, r, c)
          ensures state.items[r, c].status == Match
        {
          assert (r, c) in all;
        }
      }
    }

    /** Pairing invariant: every value 0 .. itemsCount/2 - 1 sits in exactly two cells
        of the board (read row by row), and no other value does. */
    lemma EveryValueTwiceOnBoard()
      requires Valid()
      ensures forall v :: multiset(BoardValues(state.items))[v] == (if 0 <= v < state.itemsCount / 2 then 2 else 0)
    {
      EveryValueTwice(state.items, layout, state.itemsCount / 2);
    }

    /** While one guess is open, a pick equals the stored first guess exactly when it is
        the same position: the stored copy is never stale, so comparing whole cells
        detects the repeated click on the open cell and nothing else. */
    lemma RepeatedClickIsSamePosition(row: int, column: int)
      requires Valid() && state.firstGuess.Some? && state.secondGuess.None?
      requires OnBoard(state.items, row, column)
      ensures state.firstGuess.value == state.items[row, column] <==>
        (state.firstGuess.value.row, state.firstGuess.value.column) == (row, column)
    {
    }

    /** The loop of initGame that adds every picture index twice: 0, 0, 1, 1, ...,
        uniqueItemCount - 1, uniqueItemCount - 1. */
    static method PairPictures(uniqueItemCount: nat) returns (gameItems: seq<int>)
      ensures gameItems == PairedValues(uniqueItemCount)
    {
      gameItems := [];
      var i := 0;
      while i < uniqueItemCount
        invariant 0 <= i <= uniqueItemCount
        invariant gameItems == PairedValues(i)
      {
        gameItems := gameItems + [i];
        gameItems := gameItems + [i];
        assert gameItems == PairedValues(i) + [i, i];
        i := i + 1;
      }
    }

    /** The snapshot initGame stores, built from the current one; `shuffled` and
        `imageOrder` are the outcomes of the two shuffles. */
    static method NextLevel(current: GameState, shuffled: seq<int>, imageOrder: seq<int>)
      returns (next: GameState)
      requires current.itemsCount >= 0 && current.itemsCount % 2 == 0
      requires Paired(shuffled, (current.itemsCount + 4) / 2)
      requires IsOrdering(imageOrder, |IMAGES|) && (current.itemsCount + 4) / 2 <= |IMAGES|
      ensures fresh(next.items)
      ensures LevelStarted(current, next, shuffled, ShuffledImages(imageOrder)[..(current.itemsCount + 4) / 2])
      ensures StoreIfChanged(current, next) == next
    {
      var itemsCount := current.itemsCount + 4;
      var pair := ClosestFactors(itemsCount);
      var uniqueItemCount := itemsCount / 2;
      var gameItems := PairPictures(uniqueItemCount);
      // gameItems.shuffle(): the caller supplies the permutation it produced
      gameItems := shuffled;
      EvenPlusFour(current.itemsCount);
      ShuffledPairs(shuffled, uniqueItemCount);
      BoardShape(itemsCount);
      var board := CreateGameBoard(pair.1, pair.0, Opened, gameItems);
      next := current.(itemsCount := itemsCount, columnCount := pair.0, rowCount := pair.1,
        items := board, foundCount := 0, firstGuess := None, secondGuess := None,
        level := current.level + 1, imagesList := ShuffledImages(imageOrder)[..uniqueItemCount],
        previewMode := true);
      NewLevelStored(current, next);
    }

    /** initGame: stores the next level's snapshot and leaves the preview's end
        pending. When the level needs more pictures than there are, the source throws
        inside the state update, so nothing changes and no preview continuation
        follows. */
    method InitGame(shuffled: seq<int>, imageOrder: seq<int>) returns (started: bool)
      requires Valid()
      requires Paired(shuffled, (state.itemsCount + 4) / 2)
      requires IsOrdering(imageOrder, |IMAGES|)
      modifies this
      ensures Valid()
      ensures events == old(events)
      ensures started <==> (old(state.itemsCount) + 4) / 2 <= |IMAGES|
      ensures !started ==>
        state == old(state) && layout == old(layout) && revealPending == old(revealPending)
      ensures started ==>
        && LevelStarted(old(state), state, shuffled,
             ShuffledImages(imageOrder)[..(old(state.itemsCount) + 4) / 2])
        && layout == shuffled && revealPending
        && fresh(state.items) && StoreIfChanged(old(state), state) == state
    {
      if (state.itemsCount + 4) / 2 > |IMAGES| {
        // subList(0, uniqueItemCount) throws before the new state is stored
        return false;
      }
      layout := shuffled;
      revealPending := true;
      matched := {};
      var next := NextLevel(state, shuffled, imageOrder);
      state := next;
      started := true;
      LevelStartedConsistent(old(state), state, layout,
        ShuffledImages(imageOrder)[..(old(state.itemsCount) + 4) / 2]);
    }

    /** The preview's end, 2500 ms after initGame: the same layout is laid out again
        with every cell Closed and preview mode is left; nothing else changes. */
    method EndPreview()
      requires Valid() && revealPending
      modifies this
      ensures Valid() && !revealPending && fresh(state.items)
      ensures StoreIfChanged(old(state), state) == state
      ensures state == old(state).(items := state.items, previewMode := false)
      ensures state.items.Length0 == old(state.items.Length0)
      ensures state.items.Length1 == old(state.items.Length1)
      ensures forall r, c :: OnBoard(state.items, r, c) ==>
        state.items[r, c] == old(state.items[r, c]).(status := Closed)
      ensures layout == old(layout) && events == old(events)
    {
      var board := CreateGameBoard(state.rowCount, state.columnCount, Closed, layout);
      var next := state.(items := board, previewMode := false);
      BuiltBoard(board, state.rowCount, state.columnCount, Closed, layout);
      EvenHalves(state.itemsCount);
      FreshBoardConsistent(next, layout, state.itemsCount / 2, Closed, false);
      state := next;
      revealPending := false;
      matched := {};
      MulPositive(state.rowCount, state.columnCount);
      CellChangeStored(old(state), state, 0, 0);
    }

    /** guess(column, row): ignored in preview mode and on a matched cell; otherwise
        the first, second or next pick of a turn, after which preview mode (the lock)
        is on exactly when every cell is matched, and GameWon is sent exactly when
        this move set the lock. A position off the board makes the source throw on
        its first read of the board, before anything is changed. */
    method Guess(column: int, row: int)
      requires Valid()
      modifies this, state.items
      ensures Valid()
      ensures layout == old(layout) && revealPending == old(revealPending)
      ensures state.items == old(state.items)
      ensures old(state.previewMode) || !OnBoard(old(state.items), row, column) ==>
        state == old(state) && events == old(events) && unchanged(state.items)
      ensures !old(state.previewMode) && OnBoard(old(state.items), row, column) ==>
        var target := old(state.items[row, column]);
        if target.status == Match then
          state == old(state) && events == old(events) && unchanged(state.items)
        else if old(state.firstGuess).None? then FirstPicked(old(state), state, row, column)
        else if old(state.secondGuess).None? then
          if old(state.firstGuess.value) == target then
            state == old(state) && events == old(events) && unchanged(state.items)
          else PairResolved(old(state), state, row, column)
        else NextTurnStarted(old(state), state, row, column)
      ensures !old(state.previewMode) ==> (state.previewMode <==> AllMatched(state.items))
      ensures events == old(events) + (if !old(state.previewMode) && state.previewMode then [GameWon] else [])
      ensures StoreIfChanged(old(state), state) == state
    {
      if state.previewMode {
        return;
      }
      if !(0 <= row < state.items.Length0 && 0 <= column < state.items.Length1) {
        // items[row][column] throws an index exception
        AllMatchedIffFound();
        return;
      }
      var guess := state.items[row, column];
      if guess.status == Match {
        AllMatchedIffFound();
        return;
      }
      if state.firstGuess.None? {
        OpenFirst(row, column);
      } else if state.secondGuess.None? {
        if state.firstGuess.value == guess {
          AllMatchedIffFound();
          return;
        }
        ResolvePair(row, column);
      } else {
        StartNextTurn(row, column);
      }
      AllMatchedIffFound();
    }

    /** The first pick of a turn (guess's first branch). */
    method OpenFirst(row: int, column: int)
      requires Valid() && !state.previewMode && OnBoard(state.items, row, column)
      requires state.items[row, column].status != Match && state.firstGuess.None?
      modifies this, state.items
      ensures Valid() && FirstPicked(old(state), state, row, column)
      ensures StoreIfChanged(old(state), state) == state
      ensures events == old(events)
      ensures layout == old(layout) && revealPending == old(revealPending)
    {
      var guess := state.items[row, column];
      state.items[row, column] := guess.(status := Opened);
      var next := state.(firstGuess := Some(state.items[row, column]), secondGuess := None);
      assert FirstPicked(old(state), next, row, column);
      FirstPickedKeeps(old(state), next, layout, matched, row, column);
      state := next;
      MoveUpdateStored(old(state), state);
    }

    /** The second pick of a turn (guess's second branch), with the lock set in the
        same update as the move. */
    method ResolvePair(row: int, column: int)
      requires Valid() && !state.previewMode && OnBoard(state.items, row, column)
      requires state.items[row, column].status != Match
      requires state.firstGuess.Some? && state.secondGuess.None?
      requires state.firstGuess.value != state.items[row, column]
      modifies this, state.items
      ensures Valid() && PairResolved(old(state), state, row, column)
      ensures StoreIfChanged(old(state), state) == state
      ensures events == old(events) + (if state.previewMode then [GameWon] else [])
      ensures layout == old(layout) && revealPending == old(revealPending)
    {
      var guess := state.items[row, column];
      var status := Opened;
      var foundCount := state.foundCount;
      var addToScore := 0;
      if state.firstGuess.value.cellValue == guess.cellValue {
        status := Match;
        addToScore := 1;
        foundCount := foundCount + 1;
      } else {
        addToScore := -1;
      }
      var f := state.firstGuess.value;
      assert (f.row, f.column) != (row, column);
      state.items[f.row, f.column] := state.items[f.row, f.column].(status := status);
      state.items[row, column] := guess.(status := status);
      MulIsProduct(state.rowCount, state.columnCount);
      var won := foundCount == (state.rowCount * state.columnCount) / 2;
      EvenHalves(state.itemsCount);
      var next := state.(firstGuess := Some(state.items[f.row, f.column]),
        secondGuess := Some(state.items[row, column]), foundCount := foundCount,
        score := state.score + addToScore, previewMode := state.previewMode || won);
      assert PairResolved(old(state), next, row, column);
      ghost var nowMatched := PairResolvedKeeps(old(state), next, layout, matched, row, column);
      if won {
        events := events + [GameWon];
      }
      state := next;
      matched := nowMatched;
      MoveUpdateStored(old(state), state);
    }

    /** A pick after a complete turn (guess's last branch). */
    method StartNextTurn(row: int, column: int)
      requires Valid() && !state.previewMode && OnBoard(state.items, row, column)
      requires state.items[row, column].status != Match
      requires state.firstGuess.Some? && state.secondGuess.Some?
      modifies this, state.items
      ensures Valid() && NextTurnStarted(old(state), state, row, column)
      ensures StoreIfChanged(old(state), state) == state
      ensures events == old(events)
      ensures layout == old(layout) && revealPending == old(revealPending)
    {
      var guess := state.items[row, column];
      var f := state.firstGuess.value;
      if f.status != Match {
        state.items[f.row, f.column] := f.(status := Closed);
      }
      var s := state.secondGuess.value;
      if s.status != Match {
        state.items[s.row, s.column] := s.(status := Closed);
      }
      state.items[row, column] := guess.(status := Opened);
      var next := state.(firstGuess := Some(state.items[row, column]), secondGuess := None);
      assert NextTurnStarted(old(state), next, row, column);
      NextTurnStartedKeeps(old(state), next, layout, matched, row, column);
      state := next;
      MoveUpdateStored(old(state), state);
    }
  }
}
