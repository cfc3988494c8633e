/** A whole first level played through the engine's public operations. */
module Scenario {
  import opened Cells
  import opened States
  import opened Factors
  import opened Boards
  import opened Invariant
  import opened Manager

  /** The shuffle outcome 0, 1 / 1, 0 on the first level's 2 x 2 board. */
  lemma CrossedPairs()
    ensures Paired([0, 1, 1, 0], 2)
  {
    assert multiset([0, 1, 1, 0]) == multiset{0, 0, 1, 1};
  }

  /** b is the first level's board with the pairs crossed, its cells in the given
      statuses (top left, top right, bottom left, bottom right). */
  ghost predicate Crossed(b: array2<Cell>, tl: CellStatus, tr: CellStatus, bl: CellStatus, br: CellStatus)
    reads b
  {
    && b.Length0 == 2 && b.Length1 == 2
    && b[0, 0] == Cell(tl, 0, 0, 0) && b[0, 1] == Cell(tr, 1, 1, 0)
    && b[1, 0] == Cell(bl, 1, 0, 1) && b[1, 1] == Cell(br, 0, 1, 1)
  }

  /** A new engine with the first level set up and the pairs crossed, still in preview. */
  method SetUpFirstLevel() returns (m: GameManager)
    ensures fresh(m) && fresh(m.state.items) && m.Valid() && m.revealPending
    ensures Crossed(m.state.items, Opened, Opened, Opened, Opened)
    ensures m.state.level == 1 && m.state.itemsCount == 4 && m.state.previewMode
    ensures m.state.firstGuess == None && m.state.secondGuess == None
    ensures m.state.score == 0 && m.state.foundCount == 0 && m.events == []
  {
    m := new GameManager();
    ClosestFactorsExamples();
    CrossedPairs();
    var started := m.InitGame([0, 1, 1, 0], seq(|IMAGES|, j => j));
    assert started;
  }

  /** When the preview ends every cell of the first level is closed and clicks are taken. */
  method EndFirstPreview(m: GameManager)
    requires m.Valid() && m.revealPending
    requires Crossed(m.state.items, Opened, Opened, Opened, Opened)
    requires m.state.level == 1 && m.state.itemsCount == 4
    requires m.state.firstGuess == None && m.state.secondGuess == None
    requires m.state.score == 0 && m.state.foundCount == 0 && m.events == []
    modifies m
    ensures fresh(m.state.items) && m.Valid()
    ensures Crossed(m.state.items, Closed, Closed, Closed, Closed)
    ensures m.state.level == 1 && m.state.itemsCount == 4 && !m.state.previewMode
    ensures m.state.firstGuess == None && m.state.secondGuess == None
    ensures m.state.score == 0 && m.state.foundCount == 0 && m.events == []
  {
    m.EndPreview();
  }

  /** The top-left cell, the same cell again (ignored), then its partner at the bottom
      right: the first pair is found. */
  method FindFirstPair(m: GameManager)
    requires m.Valid() && Crossed(m.state.items, Closed, Closed, Closed, Closed)
    requires !m.state.previewMode && m.state.itemsCount == 4
    requires m.state.firstGuess == None && m.state.secondGuess == None
    requires m.state.score == 0 && m.state.foundCount == 0 && m.events == []
    modifies m, m.state.items
    ensures m.Valid() && m.state.items == old(m.state.items)
    ensures Crossed(m.state.items, Match, Closed, Closed, Match)
    ensures !m.state.previewMode && m.state.itemsCount == 4 && m.state.level == old(m.state.level)
    ensures m.state.firstGuess == Some(Cell(Match, 0, 0, 0))
    ensures m.state.secondGuess == Some(Cell(Match, 0, 1, 1))
    ensures m.state.score == 1 && m.state.foundCount == 1 && m.events == []
  {
    m.Guess(0, 0);
    m.Guess(0, 0);
    m.Guess(1, 1);
  }

  /** The top-right cell (a new turn; the matched pair stays open), then its partner
      at the bottom left: the last pair is found, the board locks and GameWon is sent. */
  method FindLastPair(m: GameManager)
    requires m.Valid() && Crossed(m.state.items, Match, Closed, Closed, Match)
    requires !m.state.previewMode && m.state.itemsCount == 4
    requires m.state.firstGuess == Some(Cell(Match, 0, 0, 0))
    requires m.state.secondGuess == Some(Cell(Match, 0, 1, 1))
    requires m.state.score == 1 && m.state.foundCount == 1 && m.events == []
    modifies m, m.state.items
    ensures Crossed(m.state.items, Match, Match, Match, Match)
    ensures m.state.level == old(m.state.level)
    ensures m.state.score == 2 && m.state.foundCount == 2
    ensures m.state.previewMode && m.events == [GameWon]
  {
    m.Guess(1, 0);
    m.Guess(0, 1);
  }

  /** A new engine playing its whole first level ends on a locked board with score 2,
      both pairs found and exactly one GameWon sent. */
  method FirstLevelWon() returns (m: GameManager)
    ensures m.state.level == 1 && m.state.score == 2 && m.state.foundCount == 2
    ensures m.state.previewMode && m.events == [GameWon]
  {
    m := SetUpFirstLevel();
    EndFirstPreview(m);
    FindFirstPair(m);
    FindLastPair(m);
  }
}
