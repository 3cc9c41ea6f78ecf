/** The Connect Four board: a grid of coloured cells, gravity drops into a
    column, fullness, and four-in-a-row detection through the last move. */
module Board {

  /** The value of a cell: "empty", "red" or "yellow". */
  datatype Colour = Empty | Red | Yellow

  datatype Option<T> = None | Some(value: T)

  /** A (row, col) coordinate; row 0 is the top row. */
  datatype Position = Position(row: int, col: int)

  /** What a drop into a column gives: -1 for a full column, [row, col] otherwise. */
  datatype Drop = ColumnFull | Placed(pos: Position)

  /** The eight walking directions of the directional counter. */
  datatype Direction = Up | Down | Left | Right | TopLeft | BotRight | TopRight | BotLeft

  /** The four lines through a cell, each walked in two opposite directions. */
  datatype Axis = Vertical | Horizontal | Descending | Ascending

  /** How a coordinate is looked up: as Ruby's Array#[] does (a negative
      index counts from the end of the array), or only within bounds. */
  datatype Indexing = RubyIndexing | BoundedIndexing

  function RowStep(d: Direction): int {
    match d
    case Up | TopLeft | TopRight => -1
    case Down | BotRight | BotLeft => 1
    case Left | Right => 0
  }

  function ColStep(d: Direction): int {
    match d
    case Left | TopLeft | BotLeft => -1
    case Right | BotRight | TopRight => 1
    case Up | Down => 0
  }

  function First(a: Axis): Direction {
    match a
    case Vertical => Up
    case Horizontal => Left
    case Descending => TopLeft
    case Ascending => TopRight
  }

  function Second(a: Axis): Direction {
    match a
    case Vertical => Down
    case Horizontal => Right
    case Descending => BotRight
    case Ascending => BotLeft
  }

  /** `x` moved `j` unit steps in the direction of the sign of `step`. */
  function Shift(x: int, step: int, j: nat): int {
    if step < 0 then x - j else if step > 0 then x + j else x
  }

  /** The cell `j` steps away from (row, col) in direction `d`. */
  function Along(row: int, col: int, d: Direction, j: nat): Position {
    Position(Shift(row, RowStep(d), j), Shift(col, ColStep(d), j))
  }

  /** Element `i` of `s`, or None where the lookup gives nil. */
  function Index<T>(s: seq<T>, i: int, mode: Indexing): Option<T> {
    if 0 <= i < |s| then Some(s[i])
    else if mode == RubyIndexing && -|s| <= i < 0 then Some(s[i + |s|])
    else None
  }

  /** The colour at (row, col), or None where `@grid[row]` or `@grid[row][col]` is nil. */
  function CellAt(grid: seq<seq<Colour>>, row: int, col: int, mode: Indexing): (r: Option<Colour>)
    ensures mode == BoundedIndexing ==>
      r == if 0 <= row < |grid| && 0 <= col < |grid[row]| then Some(grid[row][col]) else None
  {
    match Index(grid, row, mode)
    case None => None
    case Some(cells) => Index(cells, col, mode)
  }

  /** Ruby's `@grid[row][col]`: an index in -n .. -1 reads element n + index,
      anything outside -n .. n-1 is nil. */
  lemma RubyCellAt(grid: seq<seq<Colour>>, row: int, col: int)
    ensures CellAt(grid, row, col, RubyIndexing)
         == if !(-|grid| <= row < |grid|) then None
            else var cells := grid[if row < 0 then row + |grid| else row];
              if -|cells| <= col < |cells| then Some(cells[if col < 0 then col + |cells| else col])
              else None
  {
  }

  /** How many more cells a walk from (row, col) in direction `d` can read
      before its lookup gives nil (the termination measure of CountMatches). */
  function Steps(grid: seq<seq<Colour>>, row: int, col: int, d: Direction): nat {
    var n := |grid|;
    if !(-n <= row < n) then 0
    else if RowStep(d) < 0 then row + n + 1
    else if RowStep(d) > 0 then n - row
    else
      var m := |grid[if row < 0 then row + n else row]|;
      if ColStep(d) < 0 then (if -m <= col then col + m + 1 else 0)
      else if col < m then m - col else 0
  }

  /** count_matches: -1 when the cell at (row, col) is nil or not `value`,
      otherwise one more than the count from the next cell in direction `d`. */
  function CountMatches(grid: seq<seq<Colour>>, row: int, col: int, d: Direction,
                        value: Colour, mode: Indexing): (r: int)
    ensures r >= -1
    ensures r == -1 <==> CellAt(grid, row, col, mode) != Some(value)
    decreases Steps(grid, row, col, d)
  {
    match CellAt(grid, row, col, mode)
    case None => -1
    case Some(c) =>
      if c != value then -1
      else 1 + CountMatches(grid, row + RowStep(d), col + ColStep(d), d, value, mode)
  }

  /** vert / horz / desc / asce: the two opposite counts along `axis` sum to more than 2. */
  function LineThrough(grid: seq<seq<Colour>>, row: int, col: int, value: Colour,
                       axis: Axis, mode: Indexing): (r: bool)
    ensures r ==> CellAt(grid, row, col, mode) == Some(value)
  {
    CountMatches(grid, row, col, First(axis), value, mode)
      + CountMatches(grid, row, col, Second(axis), value, mode) > 2
  }

  /** winner?: some axis through the last move carries a winning line. */
  function Winner(grid: seq<seq<Colour>>, lastMove: Position, mode: Indexing): (r: bool)
    requires CellAt(grid, lastMove.row, lastMove.col, mode).Some?
    ensures r ==> exists d :: CountMatches(grid, lastMove.row, lastMove.col, d,
                                           CellAt(grid, lastMove.row, lastMove.col, mode).value, mode) >= 2
  {
    var value := CellAt(grid, lastMove.row, lastMove.col, mode).value;
    LineThrough(grid, lastMove.row, lastMove.col, value, Vertical, mode)
    || LineThrough(grid, lastMove.row, lastMove.col, value, Horizontal, mode)
    || LineThrough(grid, lastMove.row, lastMove.col, value, Descending, mode)
    || LineThrough(grid, lastMove.row, lastMove.col, value, Ascending, mode)
  }

  /** The cell `j` steps from (row, col) in direction `d` is read as `value`. */
  ghost predicate Matches(grid: seq<seq<Colour>>, row: int, col: int, d: Direction,
                          value: Colour, mode: Indexing, j: nat)
  {
    var p := Along(row, col, d, j);
    CellAt(grid, p.row, p.col, mode) == Some(value)
  }

  /** The origin and the next `k` cells in direction `d` are all read as `value`. */
  ghost predicate RunOf(grid: seq<seq<Colour>>, row: int, col: int, d: Direction,
                        value: Colour, mode: Indexing, k: nat)
  {
    forall j: nat :: j <= k ==> Matches(grid, row, col, d, value, mode, j)
  }

  /** At least four cells in a row along `axis`, the last move among them,
      all read as the colour of the last move. Under RubyIndexing these are
      four reads along the walk, which may wrap around the board and read
      one cell twice. */
  ghost predicate FourThrough(grid: seq<seq<Colour>>, p: Position, axis: Axis, mode: Indexing)
    requires CellAt(grid, p.row, p.col, mode).Some?
  {
    var value := CellAt(grid, p.row, p.col, mode).value;
    exists a: nat, b: nat ::
      3 <= a + b
      && RunOf(grid, p.row, p.col, First(axis), value, mode, a)
      && RunOf(grid, p.row, p.col, Second(axis), value, mode, b)
  }

  /** A run of at least four on-board cells of the last move's colour along
      `axis` passes through `p`: `a` cells one way and `b` the other. */
  ghost predicate FourOnBoard(grid: seq<seq<Colour>>, p: Position, axis: Axis)
    requires 0 <= p.row < |grid| && 0 <= p.col < |grid[p.row]|
  {
    exists a: nat, b: nat ::
      3 <= a + b
      && OnBoardRun(grid, p, First(axis), a)
      && OnBoardRun(grid, p, Second(axis), b)
  }

  /** The next `k` cells from `p` in direction `d` exist on the board and
      hold the colour of `p`. */
  ghost predicate OnBoardRun(grid: seq<seq<Colour>>, p: Position, d: Direction, k: nat)
    requires 0 <= p.row < |grid| && 0 <= p.col < |grid[p.row]|
  {
    forall j: nat :: j <= k ==> OnBoardAt(grid, p, d, j)
  }

  ghost predicate OnBoardAt(grid: seq<seq<Colour>>, p: Position, d: Direction, j: nat)
    requires 0 <= p.row < |grid| && 0 <= p.col < |grid[p.row]|
  {
    var q := Along(p.row, p.col, d, j);
    0 <= q.row < |grid| && 0 <= q.col < |grid[q.row]| && grid[q.row][q.col] == grid[p.row][p.col]
  }

  // ---------------------------------------------------------------------
  // Gravity: find_lowest_empty and the grid after a drop

  /** Rows 0 .. height-1 of the grid all have a cell in column `col`. */
  predicate ColumnIn(grid: seq<seq<Colour>>, height: int, col: int) {
    0 < height <= |grid| && 0 <= col && forall k :: 0 <= k < height ==> col < |grid[k]|
  }

  /** find_lowest_empty(col, row): walks down from `row`; the row just above
      the first non-empty cell, or the bottom row if it reaches it. */
  function LowestEmptyFrom(grid: seq<seq<Colour>>, height: int, col: int, row: int): (r: int)
    requires ColumnIn(grid, height, col) && 0 <= row < height
    ensures row - 1 <= r < height
    ensures forall k :: row <= k <= r ==> grid[k][col] == Empty
    ensures r + 1 < height ==> grid[r + 1][col] != Empty
    decreases height - row
  {
    if grid[row][col] != Empty then row - 1
    else if row == height - 1 then row
    else LowestEmptyFrom(grid, height, col, row + 1)
  }

  /** find_lowest_empty(col) with its default start at row 0. */
  function FindLowestEmpty(grid: seq<seq<Colour>>, height: int, col: int): int
    requires ColumnIn(grid, height, col)
  {
    LowestEmptyFrom(grid, height, col, 0)
  }

  /** `r` is the row just above the topmost non-empty cell of column `col`
      (-1 when the top cell is filled, height-1 when the column is empty). */
  ghost predicate IsLowestEmpty(grid: seq<seq<Colour>>, height: int, col: int, r: int)
    requires ColumnIn(grid, height, col)
  {
    -1 <= r < height
    && (forall k :: 0 <= k <= r ==> grid[k][col] == Empty)
    && (r + 1 < height ==> grid[r + 1][col] != Empty)
  }

  /** The grid after add_piece(col, colour). */
  function Dropped(grid: seq<seq<Colour>>, height: int, col: int, colour: Colour): seq<seq<Colour>>
    requires ColumnIn(grid, height, col)
  {
    var r := FindLowestEmpty(grid, height, col);
    if r == -1 then grid else grid[r := grid[r][col := colour]]
  }

  /** The result add_piece(col, colour) returns. */
  function DropResult(grid: seq<seq<Colour>>, height: int, col: int): Drop
    requires ColumnIn(grid, height, col)
  {
    var r := FindLowestEmpty(grid, height, col);
    if r == -1 then ColumnFull else Placed(Position(r, col))
  }

  // ---------------------------------------------------------------------
  // Fullness

  /** row.count { |cell| cell.value == "empty" } */
  function EmptiesIn(cells: seq<Colour>): (n: nat)
    ensures n <= |cells|
    ensures n == 0 <==> forall c :: 0 <= c < |cells| ==> cells[c] != Empty
    ensures n == multiset(cells)[Empty]
  {
    if cells == [] then 0
    else
      assert cells == cells[..|cells| - 1] + [cells[|cells| - 1]];
      EmptiesIn(cells[..|cells| - 1]) + (if cells[|cells| - 1] == Empty then 1 else 0)
  }

  /** The number of empty cells in the whole grid. */
  function EmptyCount(grid: seq<seq<Colour>>): nat {
    if grid == [] then 0 else EmptyCount(grid[..|grid| - 1]) + EmptiesIn(grid[|grid| - 1])
  }

  /** No cell of the grid is empty. */
  ghost predicate NoEmptyCell(grid: seq<seq<Colour>>) {
    forall r, c :: 0 <= r < |grid| && 0 <= c < |grid[r]| ==> grid[r][c] != Empty
  }

  /** The cells of column `col`, top to bottom, over rows 0 .. height-1. */
  function Column(grid: seq<seq<Colour>>, height: int, col: int): (s: seq<Colour>)
    requires ColumnIn(grid, height, col)
    ensures |s| == height && forall k :: 0 <= k < height ==> s[k] == grid[k][col]
  {
    seq(height, k requires 0 <= k < height => grid[k][col])
  }

  /** Gravity shape: in every column, a filled cell has only filled cells below it. */
  ghost predicate Settled(grid: seq<seq<Colour>>) {
    forall r1, r2, c ::
      0 <= r1 < r2 < |grid| && 0 <= c < |grid[r1]| && c < |grid[r2]| && grid[r1][c] != Empty
      ==> grid[r2][c] != Empty
  }

  // ---------------------------------------------------------------------
  // The board object

  class Board {
    var grid: seq<seq<Colour>>
    var width: int
    var height: int

    /** The grid has `height` rows of `width` cells each. */
    ghost predicate Valid()
      reads this
    {
      |grid| == height && forall k :: 0 <= k < |grid| ==> |grid[k]| == width
    }

    /** Board.new(width, height): an all-empty grid. */
    constructor (width: nat, height: nat)
      ensures Valid() && this.width == width && this.height == height
      ensures forall r, c :: 0 <= r < height && 0 <= c < width ==> grid[r][c] == Empty
    {
      this.width := width;
      this.height := height;
      this.grid := seq(height, _ => seq(width, _ => Empty));
    }

    /** Board.new(width, height, grid): an injected grid, kept as it is. */
    constructor WithGrid(width: int, height: int, grid: seq<seq<Colour>>)
      ensures this.grid == grid && this.width == width && this.height == height
    {
      this.width := width;
      this.height := height;
      this.grid := grid;
    }

    /** add_piece: drops `colour` into column `col`. */
    method AddPiece(col: int, colour: Colour) returns (result: Drop)
      requires Valid() && 0 < height && 0 <= col < width
      modifies this
      ensures Valid() && width == old(width) && height == old(height)
      ensures ColumnIn(old(grid), height, col)
      ensures result == DropResult(old(grid), height, col)
      ensures grid == Dropped(old(grid), height, col, colour)
      ensures result.Placed? ==> result.pos.col == col && old(grid)[result.pos.row][col] == Empty
    {
      var row := FindLowestEmpty(grid, height, col);
      if row == -1 {
        return ColumnFull;
      }
      grid := grid[row := grid[row][col := colour]];
      result := Placed(Position(row, col));
    }

    /** full?: sums the per-row counts of empty cells and compares the total with 0. */
    method Full() returns (full: bool)
      ensures full <==> NoEmptyCell(grid)
    {
      var g := grid;
      var counts := seq(|g|, k requires 0 <= k < |g| => EmptiesIn(g[k]));
      var total := 0;
      var i := 0;
      while i < |counts|
        invariant 0 <= i <= |g|
        invariant total == EmptyCount(g[..i])
      {
        assert g[..i + 1][..i] == g[..i];
        total := total + counts[i];
        i := i + 1;
      }
      assert g[..i] == g;
      EmptyCountZero(g);
      full := total == 0;
    }
  }

  /** The total of empty cells is zero exactly when no cell is empty. */
  lemma {:induction false} EmptyCountZero(grid: seq<seq<Colour>>)
    ensures EmptyCount(grid) == 0 <==> NoEmptyCell(grid)
  {
    if grid != [] {
      var n := |grid| - 1;
      EmptyCountZero(grid[..n]);
      assert forall r :: 0 <= r < n ==> grid[..n][r] == grid[r];
    }
  }

  // ---------------------------------------------------------------------
  // What the directional counter counts

  /** One step from (row, col) in direction `d` is where the walk continues. */
  lemma ShiftedMatches(grid: seq<seq<Colour>>, row: int, col: int, d: Direction,
                       value: Colour, mode: Indexing, j: nat)
    ensures Matches(grid, row + RowStep(d), col + ColStep(d), d, value, mode, j)
        == Matches(grid, row, col, d, value, mode, j + 1)
  {
  }

  /** When the origin matches, count_matches is the number of further cells
      in direction `d` read as `value` before the first nil or mismatch. */
  lemma {:induction false} CountMatchesIsRun(grid: seq<seq<Colour>>, row: int, col: int,
                                              d: Direction, value: Colour, mode: Indexing)
    ensures CountMatches(grid, row, col, d, value, mode) == -1
        <==> !Matches(grid, row, col, d, value, mode, 0)
    ensures CountMatches(grid, row, col, d, value, mode) >= 0
        ==> RunOf(grid, row, col, d, value, mode, CountMatches(grid, row, col, d, value, mode))
    ensures CountMatches(grid, row, col, d, value, mode) >= 0
        ==> !Matches(grid, row, col, d, value, mode, CountMatches(grid, row, col, d, value, mode) + 1)
    decreases Steps(grid, row, col, d)
  {
    assert Along(row, col, d, 0) == Position(row, col);
    if CellAt(grid, row, col, mode) == Some(value) {
      var row', col' := row + RowStep(d), col + ColStep(d);
      StepsDecrease(grid, row, col, d, mode);
      CountMatchesIsRun(grid, row', col', d, value, mode);
      var r' := CountMatches(grid, row', col', d, value, mode);
      assert CountMatches(grid, row, col, d, value, mode) == r' + 1;
      ShiftedMatches(grid, row, col, d, value, mode, r' + 1);
      if r' >= 0 {
        RunExtends(grid, row, col, d, value, mode, r');
      }
    }
  }

  /** Each step of a walk that read a cell brings it closer to a nil lookup. */
  lemma StepsDecrease(grid: seq<seq<Colour>>, row: int, col: int, d: Direction, mode: Indexing)
    requires CellAt(grid, row, col, mode).Some?
    ensures Steps(grid, row + RowStep(d), col + ColStep(d), d) < Steps(grid, row, col, d)
  {
  }

  /** A run from the next cell, preceded by a matching origin, is a run one longer. */
  lemma RunExtends(grid: seq<seq<Colour>>, row: int, col: int, d: Direction,
                   value: Colour, mode: Indexing, k: nat)
    requires Matches(grid, row, col, d, value, mode, 0)
    requires RunOf(grid, row + RowStep(d), col + ColStep(d), d, value, mode, k)
    ensures RunOf(grid, row, col, d, value, mode, k + 1)
  {
    forall j: nat | j <= k + 1
      ensures Matches(grid, row, col, d, value, mode, j)
    {
      if j > 0 {
        ShiftedMatches(grid, row, col, d, value, mode, j - 1);
      }
    }
  }

  /** With the origin matching, a run of `k` further cells exists exactly
      when `k` is at most the count. */
  lemma RunWithinCount(grid: seq<seq<Colour>>, row: int, col: int, d: Direction,
                       value: Colour, mode: Indexing, k: nat)
    requires CellAt(grid, row, col, mode) == Some(value)
    ensures RunOf(grid, row, col, d, value, mode, k)
        <==> k <= CountMatches(grid, row, col, d, value, mode)
  {
    CountMatchesIsRun(grid, row, col, d, value, mode);
    var r := CountMatches(grid, row, col, d, value, mode);
    if k > r {
      assert !Matches(grid, row, col, d, value, mode, r + 1);
      assert !RunOf(grid, row, col, d, value, mode, k);
    }
  }

  /** vert / horz / desc / asce hold exactly when a run of at least four
      cells of the last move's colour lies along that axis through it. */
  lemma LineThroughIffFour(grid: seq<seq<Colour>>, p: Position, axis: Axis, mode: Indexing)
    requires CellAt(grid, p.row, p.col, mode).Some?
    ensures LineThrough(grid, p.row, p.col, CellAt(grid, p.row, p.col, mode).value, axis, mode)
        <==> FourThrough(grid, p, axis, mode)
  {
    var value := CellAt(grid, p.row, p.col, mode).value;
    var d1, d2 := First(axis), Second(axis);
    CountMatchesIsRun(grid, p.row, p.col, d1, value, mode);
    CountMatchesIsRun(grid, p.row, p.col, d2, value, mode);
    var k1 := CountMatches(grid, p.row, p.col, d1, value, mode);
    var k2 := CountMatches(grid, p.row, p.col, d2, value, mode);
    if FourThrough(grid, p, axis, mode) {
      var a: nat, b: nat :| 3 <= a + b
        && RunOf(grid, p.row, p.col, d1, value, mode, a)
        && RunOf(grid, p.row, p.col, d2, value, mode, b);
      RunWithinCount(grid, p.row, p.col, d1, value, mode, a);
      RunWithinCount(grid, p.row, p.col, d2, value, mode, b);
    }
  }

  /** Runs of `a` and `b` further cells on the two sides of an axis, with
      a + b >= 3, make winner? hold. */
  lemma WinnerFromRuns(grid: seq<seq<Colour>>, p: Position, axis: Axis, mode: Indexing, a: nat, b: nat)
    requires CellAt(grid, p.row, p.col, mode).Some?
    requires 3 <= a + b
    requires RunOf(grid, p.row, p.col, First(axis), CellAt(grid, p.row, p.col, mode).value, mode, a)
    requires RunOf(grid, p.row, p.col, Second(axis), CellAt(grid, p.row, p.col, mode).value, mode, b)
    ensures Winner(grid, p, mode)
  {
    LineThroughIffFour(grid, p, axis, mode);
    WinnerIffFour(grid, p, mode);
  }

  /** A run of exactly `k` further matching cells gives count_matches == k. */
  lemma CountMatchesExact(grid: seq<seq<Colour>>, row: int, col: int, d: Direction,
                          value: Colour, mode: Indexing, k: nat)
    requires RunOf(grid, row, col, d, value, mode, k)
    requires !Matches(grid, row, col, d, value, mode, k + 1)
    ensures CountMatches(grid, row, col, d, value, mode) == k
  {
    assert Along(row, col, d, 0) == Position(row, col);
    assert Matches(grid, row, col, d, value, mode, 0);
    RunWithinCount(grid, row, col, d, value, mode, k);
    CountMatchesIsRun(grid, row, col, d, value, mode);
  }

  /** winner? holds exactly when some axis through the last move carries a
      run of at least four cells of its colour. */
  lemma WinnerIffFour(grid: seq<seq<Colour>>, p: Position, mode: Indexing)
    requires CellAt(grid, p.row, p.col, mode).Some?
    ensures Winner(grid, p, mode) <==> exists axis :: FourThrough(grid, p, axis, mode)
  {
    LineThroughIffFour(grid, p, Vertical, mode);
    LineThroughIffFour(grid, p, Horizontal, mode);
    LineThroughIffFour(grid, p, Descending, mode);
    LineThroughIffFour(grid, p, Ascending, mode);
    if exists axis :: FourThrough(grid, p, axis, mode) {
      var axis :| FourThrough(grid, p, axis, mode);
      assert axis in {Vertical, Horizontal, Descending, Ascending};
    }
  }

  /** With bounded lookups a run is a run of genuine cells of the board. */
  lemma BoundedRunOnBoard(grid: seq<seq<Colour>>, p: Position, d: Direction, k: nat)
    requires 0 <= p.row < |grid| && 0 <= p.col < |grid[p.row]|
    ensures RunOf(grid, p.row, p.col, d, grid[p.row][p.col], BoundedIndexing, k)
        <==> OnBoardRun(grid, p, d, k)
  {
    forall j: nat | j <= k
      ensures Matches(grid, p.row, p.col, d, grid[p.row][p.col], BoundedIndexing, j)
          <==> OnBoardAt(grid, p, d, j)
    {
    }
  }

  /** The corrected check: with in-bounds walks, winner? holds exactly when a
      run of at least four on-board cells of the last move's colour passes
      through it along one of the four axes. */
  lemma BoundedWinnerIffFourOnBoard(grid: seq<seq<Colour>>, p: Position)
    requires 0 <= p.row < |grid| && 0 <= p.col < |grid[p.row]|
    ensures Winner(grid, p, BoundedIndexing) <==> exists axis :: FourOnBoard(grid, p, axis)
  {
    WinnerIffFour(grid, p, BoundedIndexing);
    var value := grid[p.row][p.col];
    forall axis
      ensures FourThrough(grid, p, axis, BoundedIndexing) <==> FourOnBoard(grid, p, axis)
    {
      forall a: nat
        ensures RunOf(grid, p.row, p.col, First(axis), value, BoundedIndexing, a)
            <==> OnBoardRun(grid, p, First(axis), a)
        ensures RunOf(grid, p.row, p.col, Second(axis), value, BoundedIndexing, a)
            <==> OnBoardRun(grid, p, Second(axis), a)
      {
        BoundedRunOnBoard(grid, p, First(axis), a);
        BoundedRunOnBoard(grid, p, Second(axis), a);
      }
    }
  }

  // ---------------------------------------------------------------------
  // What a drop does

  /** find_lowest_empty returns `r` exactly when `r` is the row just above
      the topmost filled cell of the column (-1: top filled; height-1: empty column). */
  lemma FindLowestEmptyIff(grid: seq<seq<Colour>>, height: int, col: int, r: int)
    requires ColumnIn(grid, height, col)
    ensures FindLowestEmpty(grid, height, col) == r <==> IsLowestEmpty(grid, height, col, r)
  {
  }

  /** On a board in gravity shape the drop row is the lowest empty cell of
      the column: every cell below it is filled. */
  lemma SettledDropRowIsLowest(grid: seq<seq<Colour>>, height: int, col: int)
    requires ColumnIn(grid, height, col) && height == |grid| && Settled(grid)
    ensures var r := FindLowestEmpty(grid, height, col);
      forall k :: r < k < height ==> grid[k][col] != Empty
  {
  }

  /** add_piece on a full column changes nothing; otherwise it turns exactly
      the empty cell (r, col) into `colour`, a cell that rests on the bottom
      or on a filled cell, and leaves every other cell and the shape alone. */
  lemma DropPlacesOnePiece(grid: seq<seq<Colour>>, height: int, col: int, colour: Colour)
    requires ColumnIn(grid, height, col)
    ensures var r := FindLowestEmpty(grid, height, col);
      var g := Dropped(grid, height, col, colour);
      && (r == -1 ==> g == grid && DropResult(grid, height, col) == ColumnFull)
      && (r != -1 ==>
            && DropResult(grid, height, col) == Placed(Position(r, col))
            && grid[r][col] == Empty
            && (r == height - 1 || grid[r + 1][col] != Empty)
            && |g| == |grid|
            && (forall k :: 0 <= k < |g| ==> |g[k]| == |grid[k]|)
            && g[r][col] == colour
            && (forall k, c :: 0 <= k < |g| && 0 <= c < |g[k]| && (k, c) != (r, col)
                  ==> g[k][c] == grid[k][c]))
  {
  }

  /** A drop of a real colour keeps a board that is in gravity shape in
      gravity shape. */
  lemma DropKeepsSettled(grid: seq<seq<Colour>>, height: int, col: int, colour: Colour)
    requires ColumnIn(grid, height, col) && height == |grid| && Settled(grid)
    requires colour != Empty
    ensures Settled(Dropped(grid, height, col, colour))
  {
  }

  /** Empty cells of a sequence after one of them is overwritten with a colour. */
  lemma EmptiesInUpdate(cells: seq<Colour>, i: int, colour: Colour)
    requires 0 <= i < |cells| && cells[i] == Empty && colour != Empty
    ensures EmptiesIn(cells[i := colour]) == EmptiesIn(cells) - 1
  {
  }

  /** A successful drop of a real colour leaves exactly one empty cell fewer
      in its column. */
  lemma DropFillsOneEmpty(grid: seq<seq<Colour>>, height: int, col: int, colour: Colour)
    requires ColumnIn(grid, height, col) && colour != Empty
    requires FindLowestEmpty(grid, height, col) != -1
    ensures ColumnIn(Dropped(grid, height, col, colour), height, col)
    ensures EmptiesIn(Column(Dropped(grid, height, col, colour), height, col))
         == EmptiesIn(Column(grid, height, col)) - 1
  {
    var r := FindLowestEmpty(grid, height, col);
    var g := Dropped(grid, height, col, colour);
    assert Column(g, height, col) == Column(grid, height, col)[r := colour];
    EmptiesInUpdate(Column(grid, height, col), r, colour);
  }
}
