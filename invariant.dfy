/** The engine's invariant over a snapshot. */
module Invariant {
  import opened Cells
  import opened States
  import opened Factors
  import opened Boards

  /** (row, column) lies on board b. */
  ghost predicate OnBoard(b: array2<Cell>, row: int, column: int)
  {
    0 <= row < b.Length0 && 0 <= column < b.Length1
  }

  /** Every cell of b carries its own coordinates. */
  ghost predicate Placed(b: array2<Cell>)
    reads b
  {
    forall r, c :: OnBoard(b, r, c) ==> b[r, c].row == r && b[r, c].column == c
  }

  /** A stored guess is the board's current cell at its own coordinates. */
  ghost predicate Current(b: array2<Cell>, guess: Option<Cell>)
    reads b
  {
    guess.Some? ==>
      OnBoard(b, guess.value.row, guess.value.column) &&
      b[guess.value.row, guess.value.column] == guess.value
  }

  /** Every cell of b is matched. */
  ghost predicate AllMatched(b: array2<Cell>)
    reads b
  {
    forall r, c :: OnBoard(b, r, c) ==> b[r, c].status == Match
  }

  /** The engine's invariant over a state, the layout it was built from, whether the
      preview is pending, and the set of matched positions. */
  ghost predicate Consistent(s: GameState, layout: seq<int>, revealPending: bool, matched: set<(int, int)>)
    reads s.items
  {
    && s.items.Length0 == s.rowCount && s.items.Length1 == s.columnCount
    && s.itemsCount == Mul(s.rowCount, s.columnCount) && s.itemsCount % 2 == 0
    // the board holds a shuffled paired list, each cell at its own coordinates
    && LaidOut(s.items, layout)
    && Paired(layout, s.itemsCount / 2)
    && Placed(s.items)
    // the stored guesses are never stale
    && Current(s.items, s.firstGuess) && Current(s.items, s.secondGuess)
    && (s.firstGuess.None? ==> s.secondGuess.None?)
    && (s.firstGuess.Some? && s.secondGuess.None? ==> s.firstGuess.value.status == Opened)
    // foundCount counts the matched pairs; open play means some pair is left
    && matched <= Grid(s.rowCount, s.columnCount)
    && (forall r, c :: OnBoard(s.items, r, c) ==> ((r, c) in matched <==> s.items[r, c].status == Match))
    && |matched| == 2 * s.foundCount
    && (!s.previewMode ==> 2 * s.foundCount < s.itemsCount)
    // while the preview is pending nothing has been played
    && (revealPending ==> s.previewMode && s.foundCount == 0 && s.firstGuess.None? && s.itemsCount > 0)
    && (revealPending ==> forall r, c :: OnBoard(s.items, r, c) ==> s.items[r, c].status == Opened)
  }

  /** Board b is laid out from layout, every cell at its own coordinates and of the
      given status. */
  ghost predicate FreshBoard(b: array2<Cell>, layout: seq<int>, status: CellStatus)
    reads b
  {
    && LaidOut(b, layout)
    && Placed(b)
    && forall r, c :: OnBoard(b, r, c) ==> b[r, c].status == status
  }

  /** initGame took `before` to `after`: four more cells, the most square board shape
      for them, the shuffled pairs laid out face up, the kept pictures, the next
      level and preview mode; guesses and the pair count are reset and the score is
      kept. */
  ghost predicate LevelStarted(before: GameState, after: GameState, shuffled: seq<int>, images: seq<string>)
    reads after.items
  {
    var count := before.itemsCount + 4;
    var pair := ClosestFactors(count);
    && after == before.(itemsCount := count, columnCount := pair.0, rowCount := pair.1,
         items := after.items, foundCount := 0, firstGuess := None, secondGuess := None,
         level := before.level + 1, imagesList := images, previewMode := true)
    && after.items.Length0 == pair.1 && after.items.Length1 == pair.0
    && forall r, c :: 0 <= r < pair.1 && 0 <= c < pair.0 ==>
         0 <= Flat(r, c, pair.0) < |shuffled| &&
         after.items[r, c] == Cell(Opened, shuffled[Flat(r, c, pair.0)], c, r)
  }

  /** A freshly laid out board with no guesses and nothing found satisfies the
      invariant, whatever the status of its cells (none of them Match). */
  lemma FreshBoardConsistent(s: GameState, layout: seq<int>, k: nat, status: CellStatus, pending: bool)
    requires status != Match && k > 0
    requires s.items.Length0 == s.rowCount && s.items.Length1 == s.columnCount
    requires s.itemsCount == Mul(s.rowCount, s.columnCount) && s.itemsCount == 2 * k
    requires FreshBoard(s.items, layout, status)
    requires Paired(layout, k)
    requires s.firstGuess == None && s.secondGuess == None && s.foundCount == 0
    requires pending ==> s.previewMode && status == Opened
    ensures Consistent(s, layout, pending, {})
  {
    DoubleHalves(k);
  }

  /** The snapshot a level start stores satisfies the invariant, with the preview's
      end pending and nothing matched. */
  lemma LevelStartedConsistent(before: GameState, after: GameState, shuffled: seq<int>, images: seq<string>)
    requires before.itemsCount >= 0 && before.itemsCount % 2 == 0
    requires Paired(shuffled, (before.itemsCount + 4) / 2)
    requires LevelStarted(before, after, shuffled, images)
    ensures Consistent(after, shuffled, true, {})
  {
    var pair := ClosestFactors(before.itemsCount + 4);
    var k := (before.itemsCount + 4) / 2;
    EvenPlusFour(before.itemsCount);
    ShuffledPairs(shuffled, k);
    MulIsProduct(pair.1, pair.0);
    BuiltBoard(after.items, pair.1, pair.0, Opened, shuffled);
    FreshBoardConsistent(after, shuffled, k, Opened, true);
  }

  /** A board built by CreateGameBoard from a list of exactly its size is laid out
      from that list, with every cell at its own coordinates and of the given status. */
  lemma BuiltBoard(b: array2<Cell>, rowCount: nat, columnCount: nat, status: CellStatus, gameItems: seq<int>)
    requires |gameItems| == Mul(rowCount, columnCount)
    requires b.Length0 == rowCount && b.Length1 == columnCount
    requires forall r, c :: 0 <= r < rowCount && 0 <= c < columnCount ==>
      0 <= Flat(r, c, columnCount) < |gameItems| &&
      b[r, c] == Cell(status, gameItems[Flat(r, c, columnCount)], c, r)
    ensures FreshBoard(b, gameItems, status)
  {
  }


  /** Rewriting statuses only keeps the board laid out from the same list, every cell
      at its own coordinates. */
  twostate lemma StatusesRewritten(b: array2<Cell>, new layout: seq<int>)
    requires old(LaidOut(b, layout)) && old(Placed(b))
    requires forall r, c :: OnBoard(b, r, c) ==> b[r, c] == old(b[r, c]).(status := b[r, c].status)
    ensures LaidOut(b, layout) && Placed(b)
  {
  }

  /** guess's first branch took `before` to `after`: the cell at (row, column) is
      opened and becomes the first guess, the second guess is cleared, and nothing
      else changes. */
  twostate predicate FirstPicked(before: GameState, new after: GameState, row: int, column: int)
    reads after.items
  {
    && after.items == before.items
    && OnBoard(after.items, row, column)
    && after == before.(firstGuess := Some(old(before.items[row, column]).(status := Opened)),
         secondGuess := None)
    && forall r, c :: OnBoard(after.items, r, c) ==>
         after.items[r, c] ==
           if r == row && c == column then old(before.items[r, c]).(status := Opened)
           else old(before.items[r, c])
  }

  /** guess's second branch took `before` to `after`: when the two values agree both
      cells become Match, a pair is counted and the score gains 1, otherwise both stay
      Opened and the score loses 1; the two cells, as written, become the stored
      guesses; finding the last pair sets preview mode, the lock. */
  twostate predicate PairResolved(before: GameState, new after: GameState, row: int, column: int)
    reads after.items
  {
    && after.items == before.items
    && OnBoard(after.items, row, column)
    && before.firstGuess.Some?
    && var f := before.firstGuess.value;
       var target := old(before.items[row, column]);
       var found := f.cellValue == target.cellValue;
       var status := if found then Match else Opened;
       var foundCount := before.foundCount + (if found then 1 else 0);
       && after == before.(firstGuess := Some(f.(status := status)),
            secondGuess := Some(target.(status := status)), foundCount := foundCount,
            score := before.score + (if found then 1 else -1),
            previewMode := before.previewMode || 2 * foundCount == before.itemsCount)
       && forall r, c :: OnBoard(after.items, r, c) ==>
            after.items[r, c] ==
              if (r == f.row && c == f.column) || (r == row && c == column)
              then old(before.items[r, c]).(status := status)
              else old(before.items[r, c])
  }

  /** guess's last branch took `before` to `after`: each stored guess that is not
      matched is closed, then the cell at (row, column) is opened and becomes the only
      guess. */
  twostate predicate NextTurnStarted(before: GameState, new after: GameState, row: int, column: int)
    reads after.items
  {
    && after.items == before.items
    && OnBoard(after.items, row, column)
    && before.firstGuess.Some? && before.secondGuess.Some?
    && var f := before.firstGuess.value;
       var s := before.secondGuess.value;
       && after == before.(firstGuess := Some(old(before.items[row, column]).(status := Opened)),
            secondGuess := None)
       && forall r, c :: OnBoard(after.items, r, c) ==>
            after.items[r, c] ==
              if r == row && c == column then old(before.items[r, c]).(status := Opened)
              else if r == s.row && c == s.column && s.status != Match then s.(status := Closed)
              else if r == f.row && c == f.column && f.status != Match then f.(status := Closed)
              else old(before.items[r, c])
  }

  /** The first pick keeps the invariant: the opened cell is not matched, so the
      matched set and the count stay as they were. */
  twostate lemma FirstPickedKeeps(before: GameState, new after: GameState, new layout: seq<int>,
    new matched: set<(int, int)>, new row: int, new column: int)
    requires old(allocated(matched)) && old(Consistent(before, layout, false, matched))
    requires OnBoard(before.items, row, column) && old(before.items[row, column].status) != Match
    requires FirstPicked(before, after, row, column)
    ensures Consistent(after, layout, false, matched)
  {
    StatusesRewritten(after.items, layout);
  }

  /** The second pick keeps the invariant: the matched set gains the pair's two
      positions exactly when their values agree, and play stays open unless that was
      the last pair. */
  twostate lemma PairResolvedKeeps(before: GameState, new after: GameState, new layout: seq<int>,
    new matched: set<(int, int)>, new row: int, new column: int) returns (nowMatched: set<(int, int)>)
    requires old(allocated(matched)) && old(Consistent(before, layout, false, matched))
    requires !before.previewMode && before.firstGuess.Some? && before.secondGuess.None?
    requires OnBoard(before.items, row, column) && old(before.items[row, column].status) != Match
    requires before.firstGuess.value != old(before.items[row, column])
    requires PairResolved(before, after, row, column)
    ensures Consistent(after, layout, false, nowMatched)
  {
    var f := before.firstGuess.value;
    StatusesRewritten(after.items, layout);
    nowMatched := matched;
    if after.items[row, column].status == Match {
      nowMatched := matched + {(f.row, f.column), (row, column)};
      assert (f.row, f.column) in Grid(before.rowCount, before.columnCount);
      assert (row, column) in Grid(before.rowCount, before.columnCount);
    }
    FullGrid(nowMatched, before.rowCount, before.columnCount);
  }

  /** The next pick keeps the invariant: only unmatched cells are closed or opened. */
  twostate lemma NextTurnStartedKeeps(before: GameState, new after: GameState, new layout: seq<int>,
    new matched: set<(int, int)>, new row: int, new column: int)
    requires old(allocated(matched)) && old(Consistent(before, layout, false, matched))
    requires OnBoard(before.items, row, column) && old(before.items[row, column].status) != Match
    requires NextTurnStarted(before, after, row, column)
    ensures Consistent(after, layout, false, matched)
  {
    StatusesRewritten(after.items, layout);
  }
}
