/** The game-state record, its defaults, and its hand-written equals/hashCode,
    which leave previewMode out. */
module States {
  import opened Cells

  /** One snapshot of the game. The board is a reference to a mutable grid of cells,
      as the record holds a reference to its array of rows; the defaults are those of
      the record's constructor. */
  datatype GameState = GameState(
    columnCount: int := 0,
    rowCount: int := 0,
    itemsCount: int := 0,
    firstGuess: Option<Cell> := None,
    secondGuess: Option<Cell> := None,
    foundCount: int := 0,
    items: array2<Cell>,
    score: int := 0,
    level: int := 0,
    imagesList: seq<string> := [],
    previewMode: bool := true)

  /** contentDeepEquals on two boards: same dimensions and equal cells everywhere. */
  predicate ContentDeepEquals(a: array2<Cell>, b: array2<Cell>)
    reads a, b
  {
    && a.Length0 == b.Length0
    && a.Length1 == b.Length1
    && forall r, c :: 0 <= r < a.Length0 && 0 <= c < a.Length1 ==> a[r, c] == b[r, c]
  }

  /** GameState.equals: the identity check first, then field by field with early
      returns; previewMode is never compared. */
  predicate Equals(s: GameState, other: GameState)
    reads s.items, other.items
  {
    if s == other then true
    else if s.columnCount != other.columnCount then false
    else if s.rowCount != other.rowCount then false
    else if s.itemsCount != other.itemsCount then false
    else if s.firstGuess != other.firstGuess then false
    else if s.secondGuess != other.secondGuess then false
    else if s.foundCount != other.foundCount then false
    else if !ContentDeepEquals(s.items, other.items) then false
    else if s.score != other.score then false
    else if s.level != other.level then false
    else if s.imagesList != other.imagesList then false
    else true
  }

  /** A state is equal to itself. */
  lemma EqualsReflexive(s: GameState)
    ensures Equals(s, s)
  {
  }

  /** Two states are equal exactly when the ten compared fields agree, the boards
      cell by cell. */
  lemma EqualsIffFieldsAgree(s: GameState, t: GameState)
    ensures Equals(s, t) <==>
      && s.columnCount == t.columnCount
      && s.rowCount == t.rowCount
      && s.itemsCount == t.itemsCount
      && s.firstGuess == t.firstGuess
      && s.secondGuess == t.secondGuess
      && s.foundCount == t.foundCount
      && ContentDeepEquals(s.items, t.items)
      && s.score == t.score
      && s.level == t.level
      && s.imagesList == t.imagesList
  {
  }

  /** States that differ only in previewMode are equal. */
  lemma PreviewModeIgnored(s: GameState, preview: bool)
    ensures Equals(s, s.(previewMode := preview))
    ensures Equals(s.(previewMode := preview), s)
  {
  }

  /** equals is symmetric and transitive. */
  lemma EqualsSymmetric(s: GameState, t: GameState)
    ensures Equals(s, t) <==> Equals(t, s)
  {
  }

  lemma EqualsTransitive(s: GameState, t: GameState, u: GameState)
    requires Equals(s, t) && Equals(t, u)
    ensures Equals(s, u)
  {
  }

  /** Kotlin's Int arithmetic: two's-complement wrap-around to 32 bits. */
  function Int32(x: int): (r: int)
    ensures -0x8000_0000 <= r < 0x8000_0000
    ensures (r - x) % 0x1_0000_0000 == 0
  {
    (x + 0x8000_0000) % 0x1_0000_0000 - 0x8000_0000
  }

  /** One step of every hashCode here: result = 31 * result + x. */
  function Fold(result: int, x: int): int
  {
    Int32(31 * result + x)
  }

  /** Hash of a status object (a stand-in per status; see README). */
  function StatusHash(status: CellStatus): int
  {
    match status
    case Closed => 0
    case Opened => 1
    case Match => 2
  }

  /** Cell's data-class hashCode over status, cellValue, column, row. */
  function CellHash(cell: Cell): int
  {
    Fold(Fold(Fold(StatusHash(cell.status), cell.cellValue), cell.column), cell.row)
  }

  /** `guess?.hashCode() ?: 0` */
  function GuessHash(guess: Option<Cell>): int
  {
    match guess
    case None => 0
    case Some(cell) => CellHash(cell)
  }

  /** contentHashCode of the first n cells of row r. */
  function RowHash(b: array2<Cell>, r: nat, n: nat): int
    requires r < b.Length0 && n <= b.Length1
    reads b
  {
    if n == 0 then 1 else Fold(RowHash(b, r, n - 1), CellHash(b[r, n - 1]))
  }

  /** contentDeepHashCode of the first m rows. */
  function BoardHash(b: array2<Cell>, m: nat): int
    requires m <= b.Length0
    reads b
  {
    if m == 0 then 1 else Fold(BoardHash(b, m - 1), RowHash(b, m - 1, b.Length1))
  }

  /** String.hashCode: the 31-fold of the character codes. */
  function StringHash(s: string): int
  {
    if |s| == 0 then 0 else Fold(StringHash(s[..|s| - 1]), s[|s| - 1] as int)
  }

  /** List.hashCode: the 31-fold of the element hashes, starting from 1. */
  function ListHash(l: seq<string>): int
  {
    if |l| == 0 then 1 else Fold(ListHash(l[..|l| - 1]), StringHash(l[|l| - 1]))
  }

  /** GameState.hashCode: the 31-fold of exactly the fields equals compares. */
  function HashCode(s: GameState): int
    reads s.items
  {
    var result := s.columnCount;
    var result := Fold(result, s.rowCount);
    var result := Fold(result, s.itemsCount);
    var result := Fold(result, GuessHash(s.firstGuess));
    var result := Fold(result, GuessHash(s.secondGuess));
    var result := Fold(result, s.foundCount);
    var result := Fold(result, BoardHash(s.items, s.items.Length0));
    var result := Fold(result, s.score);
    var result := Fold(result, s.level);
    Fold(result, ListHash(s.imagesList))
  }

  lemma {:induction false} RowHashByContent(a: array2<Cell>, b: array2<Cell>, r: nat, n: nat)
    requires ContentDeepEquals(a, b) && r < a.Length0 && n <= a.Length1
    ensures RowHash(a, r, n) == RowHash(b, r, n)
  {
    if n > 0 {
      RowHashByContent(a, b, r, n - 1);
    }
  }

  /** Boards with equal contents have equal contentDeepHashCode. */
  lemma {:induction false} BoardHashByContent(a: array2<Cell>, b: array2<Cell>, m: nat)
    requires ContentDeepEquals(a, b) && m <= a.Length0
    ensures BoardHash(a, m) == BoardHash(b, m)
  {
    if m > 0 {
      BoardHashByContent(a, b, m - 1);
      RowHashByContent(a, b, m - 1, a.Length1);
    }
  }

  /** hashCode agrees with equals: equal states hash equal, whatever their previewMode. */
  lemma HashCodeConsistent(s: GameState, t: GameState)
    requires Equals(s, t)
    ensures HashCode(s) == HashCode(t)
  {
    if s != t {
      BoardHashByContent(s.items, t.items, s.items.Length0);
    }
  }

  /** How `MutableStateFlow.update` stores a new value: it keeps the current state
      when the new one compares equal to it under equals. */
  function StoreIfChanged(current: GameState, next: GameState): GameState
    reads current.items, next.items
  {
    if Equals(current, next) then current else next
  }

  /** As written, the win lock `it.copy(previewMode = true)` is never stored: the new
      state equals the current one, so the store keeps previewMode false. */
  lemma WinLockDropped(s: GameState)
    requires !s.previewMode
    ensures !StoreIfChanged(s, s.(previewMode := true)).previewMode
  {
    PreviewModeIgnored(s, true);
  }

  /** An update whose board differs from the current one in some cell is stored whole. */
  lemma CellChangeStored(s: GameState, next: GameState, r: int, c: int)
    requires 0 <= r < s.items.Length0 && 0 <= c < s.items.Length1
    requires r < next.items.Length0 && c < next.items.Length1 ==> s.items[r, c] != next.items[r, c]
    ensures StoreIfChanged(s, next) == next
  {
  }

  /** An update that moves to another level is stored whole. */
  lemma NewLevelStored(s: GameState, next: GameState)
    requires next.level != s.level
    ensures StoreIfChanged(s, next) == next
  {
  }

  /** Every update guess makes changes a stored guess (the first pick sets firstGuess,
      the second sets secondGuess, the third clears it), so each is stored whole, a
      lock set in the same update included. */
  lemma MoveUpdateStored(s: GameState, next: GameState)
    requires next.firstGuess != s.firstGuess || next.secondGuess != s.secondGuess
    ensures StoreIfChanged(s, next) == next
  {
  }
}
