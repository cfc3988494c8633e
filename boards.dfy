/** Board construction: the paired value list, its row-major layout into a grid of
    cells, and the set of grid positions. */
module Boards {
  import opened Cells
  import opened Factors

  /** The list initGame builds before shuffling: 0, 0, 1, 1, ..., k-1, k-1. */
  function PairedValues(k: nat): (s: seq<int>)
    ensures |s| == 2 * k
  {
    if k == 0 then [] else PairedValues(k - 1) + [k - 1, k - 1]
  }

  /** Every value 0 .. k-1 occurs exactly twice in PairedValues(k), and nothing else occurs. */
  lemma {:induction false} PairedValuesCount(k: nat, v: int)
    ensures multiset(PairedValues(k))[v] == if 0 <= v < k then 2 else 0
  {
    if k > 0 {
      var prev := PairedValues(k - 1);
      PairedValuesCount(k - 1, v);
      assert PairedValues(k) == prev + [k - 1, k - 1];
      assert multiset([k - 1, k - 1])[v] == if v == k - 1 then 2 else 0;
    }
  }

  /** a * b as a repeated addition of b. The board lemmas express row starts with it,
      so that every step they take is linear; MulIsProduct ties it to a * b. */
  function Mul(a: int, b: int): int
    decreases a
  {
    if a <= 0 then 0 else Mul(a - 1, b) + b
  }

  lemma {:induction false} MulIsProduct(a: int, b: int)
    requires a >= 0
    ensures Mul(a, b) == a * b
  {
    if a > 0 {
      MulIsProduct(a - 1, b);
      assert (a - 1) * b + b == a * b;
    }
  }

  /** The board shape chosen for a positive count, rows times columns, covers exactly
      count cells. */
  lemma BoardShape(count: int)
    requires count >= 1
    ensures var pair := ClosestFactors(count); Mul(pair.1, pair.0) == count
  {
    var pair := ClosestFactors(count);
    MulIsProduct(pair.1, pair.0);
  }

  /** A board with a positive cell count has at least one row and one column. */
  lemma MulPositive(a: int, b: int)
    requires a >= 0 && b >= 0 && Mul(a, b) > 0
    ensures a > 0 && b > 0
  {
    MulIsProduct(a, b);
  }

  /** Row starts grow with the row: Mul(a, b) <= Mul(a', b) for a <= a' and b >= 0. */
  lemma {:induction false} MulGrows(a: int, a': int, b: int)
    requires 0 <= a <= a' && b >= 0
    ensures 0 <= Mul(a, b) <= Mul(a', b)
  {
    if a' > a {
      MulGrows(a, a' - 1, b);
    } else if a > 0 {
      MulGrows(a - 1, a - 1, b);
    }
  }

  /** Twice the half of an even count is that count. */
  lemma EvenHalves(m: int)
    requires m % 2 == 0
    ensures 2 * (m / 2) == m
  {
  }

  /** A doubled count is even and halves back to itself. */
  lemma DoubleHalves(k: int)
    ensures (2 * k) % 2 == 0 && (2 * k) / 2 == k
  {
  }

  /** Four more cells than an even count is again even, with two more pairs. */
  lemma EvenPlusFour(m: int)
    requires m % 2 == 0
    ensures (m + 4) % 2 == 0 && 2 * ((m + 4) / 2) == m + 4
  {
  }

  /** A permutation of a list has its length. */
  lemma SameLength<T>(a: seq<T>, b: seq<T>)
    requires multiset(a) == multiset(b)
    ensures |a| == |b|
  {
    assert |a| == |multiset(a)|;
    assert |b| == |multiset(b)|;
  }

  /** The row-major position r * columnCount + c of cell (r, c) on a board
      columnCount cells wide. */
  function Flat(r: int, c: int, columnCount: int): int
  {
    Mul(r, columnCount) + c
  }

  /** The row-major position of an in-range cell lies within the board. */
  lemma FlatIndexInRange(r: int, c: int, rowCount: int, columnCount: int)
    requires 0 <= r < rowCount && 0 <= c < columnCount
    ensures 0 <= Flat(r, c, columnCount) < Mul(rowCount, columnCount)
  {
    MulGrows(0, r, columnCount);
    MulGrows(r + 1, rowCount, columnCount);
  }

  /** The cell createGameBoard puts at (r, c): item Flat(r, c, columnCount) with its
      own coordinates and the given status. */
  function LaidCell(status: CellStatus, gameItems: seq<int>, columnCount: int, r: int, c: int): Cell
  {
    var i := Flat(r, c, columnCount);
    Cell(status, if 0 <= i < |gameItems| then gameItems[i] else 0, c, r)
  }

  /** createGameBoard: lays gameItems out row-major into a rowCount x columnCount grid;
      cell (r, c) holds gameItems[Flat(r, c, columnCount)], knows its own coordinates
      and has the requested status.
      A list shorter than the board makes the source throw. */
  method CreateGameBoard(rowCount: nat, columnCount: nat, status: CellStatus, gameItems: seq<int>)
    returns (board: array2<Cell>)
    requires Mul(rowCount, columnCount) <= |gameItems|
    ensures fresh(board)
    ensures board.Length0 == rowCount && board.Length1 == columnCount
    ensures forall r, c :: 0 <= r < rowCount && 0 <= c < columnCount ==>
      0 <= Flat(r, c, columnCount) < |gameItems| &&
      board[r, c] == Cell(status, gameItems[Flat(r, c, columnCount)], c, r)
  {
    board := new Cell[rowCount, columnCount];
    var index := 0;
    var r := 0;
    while r < rowCount
      invariant 0 <= r <= rowCount
      invariant index == Mul(r, columnCount)
      invariant forall r', c :: 0 <= r' < r && 0 <= c < columnCount ==>
        board[r', c] == LaidCell(status, gameItems, columnCount, r', c)
    {
      var c := 0;
      while c < columnCount
        invariant 0 <= c <= columnCount
        invariant index == Flat(r, c, columnCount)
        invariant forall r', c' :: 0 <= r' < r && 0 <= c' < columnCount ==>
          board[r', c'] == LaidCell(status, gameItems, columnCount, r', c')
        invariant forall c' :: 0 <= c' < c ==> board[r, c'] == LaidCell(status, gameItems, columnCount, r, c')
      {
        FlatIndexInRange(r, c, rowCount, columnCount);
        board[r, c] := Cell(status, gameItems[index], c, r);
        index := index + 1;
        c := c + 1;
      }
      r := r + 1;
    }
    LaidCellsInRange(board, status, gameItems);
  }

  /** Every cell a board holds as LaidCell reads an item inside the list. */
  lemma LaidCellsInRange(board: array2<Cell>, status: CellStatus, gameItems: seq<int>)
    requires Mul(board.Length0, board.Length1) <= |gameItems|
    requires forall r, c :: 0 <= r < board.Length0 && 0 <= c < board.Length1 ==>
      board[r, c] == LaidCell(status, gameItems, board.Length1, r, c)
    ensures forall r, c :: 0 <= r < board.Length0 && 0 <= c < board.Length1 ==>
      0 <= Flat(r, c, board.Length1) < |gameItems| &&
      board[r, c] == Cell(status, gameItems[Flat(r, c, board.Length1)], c, r)
  {
    forall r, c | 0 <= r < board.Length0 && 0 <= c < board.Length1
      ensures 0 <= Flat(r, c, board.Length1) < |gameItems| &&
        board[r, c] == Cell(status, gameItems[Flat(r, c, board.Length1)], c, r)
    {
      FlatIndexInRange(r, c, board.Length0, board.Length1);
    }
  }

  /** The values of row r, left to right. */
  ghost function RowValues(b: array2<Cell>, r: nat): (s: seq<int>)
    requires r < b.Length0
    reads b
    ensures |s| == b.Length1
    ensures forall c :: 0 <= c < b.Length1 ==> s[c] == b[r, c].cellValue
  {
    seq(b.Length1, c requires 0 <= c < b.Length1 reads b => b[r, c].cellValue)
  }

  /** The values of rows 0 .. n-1, row by row. */
  ghost function RowsValues(b: array2<Cell>, n: nat): (s: seq<int>)
    requires n <= b.Length0
    reads b
  {
    if n == 0 then [] else RowsValues(b, n - 1) + RowValues(b, n - 1)
  }

  /** The board's values read row by row. */
  ghost function BoardValues(b: array2<Cell>): seq<int>
    reads b
  {
    RowsValues(b, b.Length0)
  }

  /** The board holds layout in row-major order. */
  ghost predicate LaidOut(b: array2<Cell>, layout: seq<int>)
    reads b
  {
    && |layout| == Mul(b.Length0, b.Length1)
    && forall r, c :: 0 <= r < b.Length0 && 0 <= c < b.Length1 ==>
         0 <= Flat(r, c, b.Length1) < |layout| && b[r, c].cellValue == layout[Flat(r, c, b.Length1)]
  }

  lemma {:induction false} RowsLaidOut(b: array2<Cell>, layout: seq<int>, n: nat)
    requires LaidOut(b, layout) && n <= b.Length0
    ensures 0 <= Mul(n, b.Length1) <= |layout| && RowsValues(b, n) == layout[..Mul(n, b.Length1)]
  {
    var w := b.Length1;
    MulGrows(n, b.Length0, w);
    if n > 0 {
      RowsLaidOut(b, layout, n - 1);
      var start, end := Mul(n - 1, w), Mul(n, w);
      assert end == start + w;
      var row := layout[start .. end];
      forall c | 0 <= c < w
        ensures row[c] == RowValues(b, n - 1)[c]
      {
        assert row[c] == layout[Flat(n - 1, c, w)];
      }
      assert row == RowValues(b, n - 1);
      assert layout[..end] == layout[..start] + row;
    }
  }

  /** A board laid out from a list reads back, row by row, as exactly that list. */
  lemma BoardValuesAreLayout(b: array2<Cell>, layout: seq<int>)
    requires LaidOut(b, layout)
    ensures BoardValues(b) == layout
  {
    RowsLaidOut(b, layout, b.Length0);
  }

  /** layout holds every value 0 .. k-1 exactly twice and no other value. */
  ghost predicate Paired(layout: seq<int>, k: int)
  {
    forall v :: multiset(layout)[v] == if 0 <= v < k then 2 else 0
  }

  /** A list is a shuffle of PairedValues(k) exactly when it holds every value
      0 .. k-1 twice and nothing else; such a list has 2 * k entries. */
  lemma ShuffledPairs(layout: seq<int>, k: nat)
    ensures Paired(layout, k) <==> multiset(layout) == multiset(PairedValues(k))
    ensures Paired(layout, k) ==> |layout| == 2 * k
  {
    var pairs := PairedValues(k);
    if Paired(layout, k) {
      forall v
        ensures multiset(layout)[v] == multiset(pairs)[v]
      {
        PairedValuesCount(k, v);
      }
      assert multiset(layout) == multiset(pairs);
      SameLength(layout, pairs);
    }
    if multiset(layout) == multiset(pairs) {
      forall v
        ensures multiset(layout)[v] == if 0 <= v < k then 2 else 0
      {
        PairedValuesCount(k, v);
      }
    }
  }

  /** Pairing invariant: a board laid out from a shuffle of PairedValues(k) holds
      every value 0 .. k-1 in exactly two cells and no other value. */
  lemma EveryValueTwice(b: array2<Cell>, layout: seq<int>, k: nat)
    requires LaidOut(b, layout) && Paired(layout, k)
    ensures forall v :: multiset(BoardValues(b))[v] == if 0 <= v < k then 2 else 0
  {
    BoardValuesAreLayout(b, layout);
  }

  /** The positions (row, column) of a rowCount x columnCount board. */
  ghost function Grid(rowCount: int, columnCount: int): set<(int, int)>
  {
    set r, c | 0 <= r < rowCount && 0 <= c < columnCount :: (r, c)
  }

  /** The positions of row r. */
  ghost function GridRow(r: int, columnCount: int): set<(int, int)>
  {
    set c | 0 <= c < columnCount :: (r, c)
  }

  lemma {:induction false} GridRowSize(r: int, columnCount: nat)
    ensures |GridRow(r, columnCount)| == columnCount
  {
    if columnCount > 0 {
      GridRowSize(r, columnCount - 1);
      assert GridRow(r, columnCount) == GridRow(r, columnCount - 1) + {(r, columnCount - 1)};
    }
  }

  /** The first rowCount rows are the first rowCount - 1 rows and the last one, and
      those two share no position. */
  lemma GridSplit(rowCount: int, columnCount: int)
    requires rowCount > 0
    ensures Grid(rowCount, columnCount) == Grid(rowCount - 1, columnCount) + GridRow(rowCount - 1, columnCount)
    ensures Grid(rowCount - 1, columnCount) * GridRow(rowCount - 1, columnCount) == {}
  {
    var all, above, last := Grid(rowCount, columnCount), Grid(rowCount - 1, columnCount), GridRow(rowCount - 1, columnCount);
    forall p | p in all
      ensures p in above + last
    {
      if p.0 < rowCount - 1 {
        assert p == (p.0, p.1);
      }
    }
    forall p | p in above + last
      ensures p in all
    {
      assert p == (p.0, p.1);
    }
  }

  /** A rowCount x columnCount board has rowCount * columnCount positions. */
  lemma {:induction false} GridSize(rowCount: nat, columnCount: nat)
    ensures |Grid(rowCount, columnCount)| == Mul(rowCount, columnCount)
  {
    if rowCount > 0 {
      GridSize(rowCount - 1, columnCount);
      GridRowSize(rowCount - 1, columnCount);
      GridSplit(rowCount, columnCount);
    } else {
      assert Grid(rowCount, columnCount) == {};
    }
  }

  /** A set of positions of the board covers the whole board exactly when it has
      rowCount * columnCount elements, and it never has more. */
  lemma FullGrid(marked: set<(int, int)>, rowCount: nat, columnCount: nat)
    requires marked <= Grid(rowCount, columnCount)
    ensures |marked| <= Mul(rowCount, columnCount)
    ensures |marked| == Mul(rowCount, columnCount) <==> marked == Grid(rowCount, columnCount)
  {
    var all := Grid(rowCount, columnCount);
    GridSize(rowCount, columnCount);
    assert all == marked + (all - marked);
    assert |all| == |marked| + |all - marked|;
    if marked != all {
      var p :| p in all - marked;
      assert |all - marked| >= 1;
    }
  }
}
