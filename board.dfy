/**
 * The 3x3 board of the game: cells hold nothing or one of the two player
 * symbols, and the board is a list of three rows of three cells.
 */
module Board {
  import opened Wrappers

  /** The two symbols the game knows; `move_history` has exactly these keys. */
  datatype Symbol = X | O

  /** The text of a symbol as it appears in the result row. */
  function SymbolName(s: Symbol): (name: string)
    ensures name == "X" || name == "O"
    ensures name != "Draw"
  {
    match s
    case X => "X"
    case O => "O"
  }

  /** A cell is `None` (empty) or holds a symbol. */
  type Cell = Option<Symbol>

  /** The board as a list of rows. */
  type Grid = seq<seq<Cell>>

  /** A proposed move, the `(row, col)` pair of the source. */
  datatype Move = Move(row: int, col: int)

  /** Three rows of three cells each. */
  predicate WellFormed(g: Grid) {
    |g| == 3 && forall i :: 0 <= i < 3 ==> |g[i]| == 3
  }

  predicate InRange(m: Move) {
    0 <= m.row < 3 && 0 <= m.col < 3
  }

  /** The position of a cell in row-major order. */
  function Index(m: Move): int {
    3 * m.row + m.col
  }

  /** The cell at row-major position `k`. */
  function MoveAt(k: nat): (m: Move)
    requires k < 9
    ensures InRange(m) && Index(m) == k
  {
    if k < 3 then Move(0, k) else if k < 6 then Move(1, k - 3) else Move(2, k - 6)
  }

  /** Two in-range cells at the same row-major position are the same cell. */
  lemma IndexInjective(a: Move, b: Move)
    requires InRange(a) && InRange(b)
    ensures Index(a) == Index(b) <==> a == b
  {
  }

  function At(g: Grid, m: Move): Cell
    requires WellFormed(g) && InRange(m)
  {
    g[m.row][m.col]
  }

  /** No cell of the board is empty. */
  predicate IsFull(g: Grid)
    requires WellFormed(g)
  {
    forall i, j :: 0 <= i < 3 && 0 <= j < 3 ==> g[i][j].Some?
  }

  /** The board after `board[row][col] = s`. */
  function Place(g: Grid, m: Move, s: Symbol): (r: Grid)
    requires WellFormed(g) && InRange(m)
    ensures WellFormed(r)
    ensures r[m.row][m.col] == Some(s)
    ensures forall i, j :: 0 <= i < 3 && 0 <= j < 3 && (i != m.row || j != m.col) ==> r[i][j] == g[i][j]
  {
    g[m.row := g[m.row][m.col := Some(s)]]
  }

  /**
   * The cells among the first `k` in row-major order that hold `c`, in
   * row-major order.
   */
  function Scan(g: Grid, c: Cell, k: nat): (r: seq<Move>)
    requires WellFormed(g) && k <= 9
    ensures |r| <= k
  {
    if k == 0 then []
    else Scan(g, c, k - 1) + (if At(g, MoveAt(k - 1)) == c then [MoveAt(k - 1)] else [])
  }

  /**
   * The scan finds exactly the cells before position `k` that hold `c`,
   * each once and in increasing row-major position.
   */
  lemma {:induction false} ScanSpec(g: Grid, c: Cell, k: nat)
    requires WellFormed(g) && k <= 9
    ensures forall m :: m in Scan(g, c, k) <==> InRange(m) && Index(m) < k && At(g, m) == c
    ensures forall a, b :: 0 <= a < b < |Scan(g, c, k)| ==> Index(Scan(g, c, k)[a]) < Index(Scan(g, c, k)[b])
    ensures forall a :: 0 <= a < |Scan(g, c, k)| ==> Index(Scan(g, c, k)[a]) < k
  {
    if k > 0 {
      ScanSpec(g, c, k - 1);
      var n := MoveAt(k - 1);
      forall m | InRange(m) && Index(m) == k - 1 ensures m == n {
        IndexInjective(m, n);
      }
    }
  }

  /** The bot's candidate cells: every empty cell, in row-major order. */
  function AvailableMoves(g: Grid): seq<Move>
    requires WellFormed(g)
  {
    Scan(g, None, 9)
  }

  /** The candidates are exactly the empty cells, each once, in row-major order. */
  lemma AvailableMovesAreEmptyCells(g: Grid)
    requires WellFormed(g)
    ensures forall m :: m in AvailableMoves(g) <==> InRange(m) && g[m.row][m.col] == None
    ensures forall a, b :: 0 <= a < b < |AvailableMoves(g)| ==> Index(AvailableMoves(g)[a]) < Index(AvailableMoves(g)[b])
    ensures AvailableMoves(g) == [] <==> IsFull(g)
  {
    var r := AvailableMoves(g);
    ScanSpec(g, None, 9);
    if r != [] {
      assert r[0] in r;
    }
    if !IsFull(g) {
      var i, j :| 0 <= i < 3 && 0 <= j < 3 && g[i][j].None?;
      assert Move(i, j) in r;
    }
  }

  /** With exactly one empty cell, that cell is the only candidate. */
  lemma SingleEmptyCell(g: Grid, m: Move)
    requires WellFormed(g) && InRange(m) && g[m.row][m.col] == None
    requires forall i, j :: 0 <= i < 3 && 0 <= j < 3 && (i != m.row || j != m.col) ==> g[i][j].Some?
    ensures AvailableMoves(g) == [m]
  {
    forall n | InRange(n) && n != m ensures At(g, n).Some? {
      assert n.row != m.row || n.col != m.col;
    }
    ScanSingle(g, m, 9);
  }

  /** When `m` is the only empty cell, the scan for empty cells up to `k` finds `m` once it has passed it. */
  lemma {:induction false} ScanSingle(g: Grid, m: Move, k: nat)
    requires WellFormed(g) && InRange(m) && At(g, m) == None && k <= 9
    requires forall n :: InRange(n) && n != m ==> At(g, n).Some?
    ensures Scan(g, None, k) == if Index(m) < k then [m] else []
  {
    if k > 0 {
      ScanSingle(g, m, k - 1);
      var n := MoveAt(k - 1);
      IndexInjective(m, n);
      if n == m {
        assert Scan(g, None, k) == Scan(g, None, k - 1) + [n];
      } else {
        assert At(g, n).Some?;
        assert Scan(g, None, k) == Scan(g, None, k - 1);
      }
    }
  }

  /** A scan for a value no cell holds finds nothing. */
  lemma {:induction false} NoneHeld(g: Grid, c: Cell, k: nat)
    requires WellFormed(g) && k <= 9
    requires forall i, j :: 0 <= i < 3 && 0 <= j < 3 ==> g[i][j] != c
    ensures Scan(g, c, k) == []
  {
    if k > 0 {
      NoneHeld(g, c, k - 1);
    }
  }

  /** A board with every cell empty offers all nine cells and holds no symbol. */
  lemma EmptyGridScan(g: Grid)
    requires WellFormed(g)
    requires forall i, j :: 0 <= i < 3 && 0 <= j < 3 ==> g[i][j] == None
    ensures Scan(g, Some(X), 9) == [] && Scan(g, Some(O), 9) == []
    ensures |AvailableMoves(g)| == 9
  {
    NoneHeld(g, Some(X), 9);
    NoneHeld(g, Some(O), 9);
    ScanPartition(g, 9);
  }

  /** The number of marked cells: those holding X plus those holding O. */
  function MarkedCount(g: Grid): nat
    requires WellFormed(g)
  {
    |Scan(g, Some(X), 9)| + |Scan(g, Some(O), 9)|
  }

  /** Every cell is empty, X or O: the three scans share out the `k` cells. */
  lemma {:induction false} ScanPartition(g: Grid, k: nat)
    requires WellFormed(g) && k <= 9
    ensures |Scan(g, None, k)| + |Scan(g, Some(X), k)| + |Scan(g, Some(O), k)| == k
  {
    if k > 0 {
      ScanPartition(g, k - 1);
      match At(g, MoveAt(k - 1))
      case None =>
      case Some(X) =>
      case Some(O) =>
    }
  }

  /** Marked and empty cells together are the nine cells of the board. */
  lemma MarkedPlusAvailable(g: Grid)
    requires WellFormed(g)
    ensures MarkedCount(g) + |AvailableMoves(g)| == 9
  {
    ScanPartition(g, 9);
  }

  /** Boards `g` and `h` hold the same in every cell except perhaps `m`. */
  ghost predicate SameExcept(g: Grid, h: Grid, m: Move)
    requires WellFormed(g) && WellFormed(h)
  {
    forall n :: InRange(n) && n != m ==> At(h, n) == At(g, n)
  }

  /** `Place` changes only the cell it writes. */
  lemma PlaceSameExcept(g: Grid, m: Move, sym: Symbol)
    requires WellFormed(g) && InRange(m)
    ensures SameExcept(g, Place(g, m, sym), m)
    ensures At(Place(g, m, sym), m) == Some(sym)
  {
  }

  /** Writing `sym` over empty cell `m` adds `m` to the cells holding `sym`. */
  lemma {:induction false} ScanPlaceSame(g: Grid, h: Grid, m: Move, sym: Symbol, k: nat)
    requires WellFormed(g) && WellFormed(h) && InRange(m) && SameExcept(g, h, m) && k <= 9
    requires At(g, m) == None && At(h, m) == Some(sym)
    ensures Index(m) < k ==> multiset(Scan(h, Some(sym), k)) == multiset(Scan(g, Some(sym), k)) + multiset{m}
    ensures Index(m) >= k ==> Scan(h, Some(sym), k) == Scan(g, Some(sym), k)
  {
    if k > 0 {
      ScanPlaceSame(g, h, m, sym, k - 1);
      if Index(m) == k - 1 {
        ScanReachesPlaced(g, h, m, sym, k);
      } else {
        ScanAwayFromPlaced(g, h, m, sym, k);
      }
    }
  }

  /** The step of `ScanPlaceSame` at the written cell itself. */
  lemma ScanReachesPlaced(g: Grid, h: Grid, m: Move, sym: Symbol, k: nat)
    requires WellFormed(g) && WellFormed(h) && InRange(m) && 0 < k <= 9 && Index(m) == k - 1
    requires At(g, m) == None && At(h, m) == Some(sym)
    requires Scan(h, Some(sym), k - 1) == Scan(g, Some(sym), k - 1)
    ensures multiset(Scan(h, Some(sym), k)) == multiset(Scan(g, Some(sym), k)) + multiset{m}
  {
    IndexInjective(m, MoveAt(k - 1));
    assert Scan(h, Some(sym), k) == Scan(g, Some(sym), k - 1) + [m];
    assert Scan(g, Some(sym), k) == Scan(g, Some(sym), k - 1);
  }

  /** The step of `ScanPlaceSame` at any other cell: both boards agree there. */
  lemma ScanAwayFromPlaced(g: Grid, h: Grid, m: Move, sym: Symbol, k: nat)
    requires WellFormed(g) && WellFormed(h) && InRange(m) && SameExcept(g, h, m) && 0 < k <= 9 && Index(m) != k - 1
    requires Index(m) < k - 1 ==> multiset(Scan(h, Some(sym), k - 1)) == multiset(Scan(g, Some(sym), k - 1)) + multiset{m}
    requires Index(m) >= k - 1 ==> Scan(h, Some(sym), k - 1) == Scan(g, Some(sym), k - 1)
    ensures Index(m) < k ==> multiset(Scan(h, Some(sym), k)) == multiset(Scan(g, Some(sym), k)) + multiset{m}
    ensures Index(m) >= k ==> Scan(h, Some(sym), k) == Scan(g, Some(sym), k)
  {
    // Dafny finds this step unaided, but slowly; naming the last cell and both scans keeps it quick.
    var n := MoveAt(k - 1);
    assert At(h, n) == At(g, n);
    var a, b := Scan(g, Some(sym), k - 1), Scan(h, Some(sym), k - 1);
    var tail: seq<Move> := if At(g, n) == Some(sym) then [n] else [];
    assert Scan(g, Some(sym), k) == a + tail;
    assert Scan(h, Some(sym), k) == b + tail;
  }

  /** Rewriting cell `m` leaves the cells holding `c` as they were, when neither the old nor the new value is `c`. */
  lemma {:induction false} ScanPlaceOther(g: Grid, h: Grid, m: Move, c: Cell, k: nat)
    requires WellFormed(g) && WellFormed(h) && InRange(m) && SameExcept(g, h, m) && k <= 9
    requires At(g, m) != c && At(h, m) != c
    ensures Scan(h, c, k) == Scan(g, c, k)
  {
    if k > 0 {
      ScanPlaceOther(g, h, m, c, k - 1);
      var n := MoveAt(k - 1);
      assert At(h, n) == c <==> At(g, n) == c;
    }
  }
}
