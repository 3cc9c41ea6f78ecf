/** The concrete situations of the project's test suite, stated as lemmas
    and client methods over the model, and the input that shows the
    wrap-around false win. */
module Scenarios {
  import opened Board
  import opened Game

  /** A one-wide column of six cells, top to bottom. */
  function Column6(a: Colour, b: Colour, c: Colour, d: Colour, e: Colour, f: Colour): seq<seq<Colour>> {
    [[a], [b], [c], [d], [e], [f]]
  }

  /** The 6-high, 7-wide board filled with one colour. */
  function Uniform(colour: Colour): (g: seq<seq<Colour>>)
    ensures |g| == 6 && forall r :: 0 <= r < 6 ==> |g[r]| == 7 && forall c :: 0 <= c < 7 ==> g[r][c] == colour
  {
    seq(6, _ => seq(7, _ => colour))
  }

  // find_lowest_empty

  /** An empty column gives the bottom row, 5. */
  lemma LowestOfEmptyBoard()
    ensures ColumnIn(Uniform(Empty), 6, 0) && FindLowestEmpty(Uniform(Empty), 6, 0) == 5
  {
  }

  /** Filled cells at the bottom of a column: the row above them. */
  lemma LowestAboveFilledCells()
    ensures FindLowestEmpty(Column6(Empty, Empty, Empty, Empty, Empty, Yellow), 6, 0) == 4
    ensures FindLowestEmpty(Column6(Empty, Empty, Empty, Empty, Red, Red), 6, 0) == 3
    ensures FindLowestEmpty(Column6(Empty, Red, Red, Red, Red, Red), 6, 0) == 0
  {
  }

  /** A full column gives -1, and dropping into it changes nothing. */
  lemma LowestOfFullColumn()
    ensures FindLowestEmpty(Column6(Red, Red, Red, Red, Red, Red), 6, 0) == -1
    ensures Dropped(Column6(Red, Red, Red, Red, Red, Red), 6, 0, Yellow)
         == Column6(Red, Red, Red, Red, Red, Red)
  {
  }

  // winner?, with Ruby's lookups as the source performs them

  /** Four red at the bottom of a column, the last one at row 2. */
  lemma VerticalWin(g: seq<seq<Colour>>)
    requires g == [[Empty], [Empty], [Red], [Red], [Red], [Red]]
    ensures Winner(g, Position(2, 0), RubyIndexing)
  {
    assert CountMatches(g, 1, 0, Up, Red, RubyIndexing) == -1;
    assert CountMatches(g, 2, 0, Up, Red, RubyIndexing) == 0;
    assert CountMatches(g, 6, 0, Down, Red, RubyIndexing) == -1;
    assert CountMatches(g, 5, 0, Down, Red, RubyIndexing) == 0;
    assert CountMatches(g, 4, 0, Down, Red, RubyIndexing) == 1;
    assert CountMatches(g, 3, 0, Down, Red, RubyIndexing) == 2;
    assert CountMatches(g, 2, 0, Down, Red, RubyIndexing) == 3;
    assert LineThrough(g, 2, 0, Red, Vertical, RubyIndexing);
  }

  /** Four red at the right of a six-cell row (on a board declared 7 wide). */
  lemma HorizontalWin(g: seq<seq<Colour>>)
    requires g == [[Empty, Empty, Red, Red, Red, Red]]
    ensures Winner(g, Position(0, 2), RubyIndexing)
  {
    assert CountMatches(g, 0, 1, Left, Red, RubyIndexing) == -1;
    assert CountMatches(g, 0, 2, Left, Red, RubyIndexing) == 0;
    assert CountMatches(g, 0, 6, Right, Red, RubyIndexing) == -1;
    assert CountMatches(g, 0, 5, Right, Red, RubyIndexing) == 0;
    assert CountMatches(g, 0, 4, Right, Red, RubyIndexing) == 1;
    assert CountMatches(g, 0, 3, Right, Red, RubyIndexing) == 2;
    assert CountMatches(g, 0, 2, Right, Red, RubyIndexing) == 3;
    assert LineThrough(g, 0, 2, Red, Horizontal, RubyIndexing);
  }

  /** Red at (1, 2), (2, 3), (3, 4), (4, 5) of an otherwise empty board. */
  lemma DescendingWin(g: seq<seq<Colour>>)
    requires g == [
      [Empty, Empty, Empty, Empty, Empty, Empty, Empty],
      [Empty, Empty, Red, Empty, Empty, Empty, Empty],
      [Empty, Empty, Empty, Red, Empty, Empty, Empty],
      [Empty, Empty, Empty, Empty, Red, Empty, Empty],
      [Empty, Empty, Empty, Empty, Empty, Red, Empty],
      [Empty, Empty, Empty, Empty, Empty, Empty, Empty]
    ]
    ensures Winner(g, Position(2, 3), RubyIndexing)
  {
    assert CountMatches(g, 0, 1, TopLeft, Red, RubyIndexing) == -1;
    assert CountMatches(g, 1, 2, TopLeft, Red, RubyIndexing) == 0;
    assert CountMatches(g, 2, 3, TopLeft, Red, RubyIndexing) == 1;
    assert CountMatches(g, 5, 6, BotRight, Red, RubyIndexing) == -1;
    assert CountMatches(g, 4, 5, BotRight, Red, RubyIndexing) == 0;
    assert CountMatches(g, 3, 4, BotRight, Red, RubyIndexing) == 1;
    assert CountMatches(g, 2, 3, BotRight, Red, RubyIndexing) == 2;
    assert LineThrough(g, 2, 3, Red, Descending, RubyIndexing);
  }

  /** Red at (1, 4), (2, 3), (3, 2), (4, 1) of an otherwise empty board. */
  lemma AscendingWin(g: seq<seq<Colour>>)
    requires g == [
      [Empty, Empty, Empty, Empty, Empty, Empty, Empty],
      [Empty, Empty, Empty, Empty, Red, Empty, Empty],
      [Empty, Empty, Empty, Red, Empty, Empty, Empty],
      [Empty, Empty, Red, Empty, Empty, Empty, Empty],
      [Empty, Red, Empty, Empty, Empty, Empty, Empty],
      [Empty, Empty, Empty, Empty, Empty, Empty, Empty]
    ]
    ensures Winner(g, Position(4, 1), RubyIndexing)
  {
    assert CountMatches(g, 0, 5, TopRight, Red, RubyIndexing) == -1;
    assert CountMatches(g, 1, 4, TopRight, Red, RubyIndexing) == 0;
    assert CountMatches(g, 2, 3, TopRight, Red, RubyIndexing) == 1;
    assert CountMatches(g, 3, 2, TopRight, Red, RubyIndexing) == 2;
    assert CountMatches(g, 4, 1, TopRight, Red, RubyIndexing) == 3;
    assert CountMatches(g, 5, 0, BotLeft, Red, RubyIndexing) == -1;
    assert CountMatches(g, 4, 1, BotLeft, Red, RubyIndexing) == 0;
    assert LineThrough(g, 4, 1, Red, Ascending, RubyIndexing);
  }

  /** Only three red in a column, a yellow below them: no win. */
  lemma ThreeIsNoWin(g: seq<seq<Colour>>)
    requires g == [[Empty], [Empty], [Red], [Red], [Red], [Yellow]]
    ensures !Winner(g, Position(2, 0), RubyIndexing)
  {
    assert CountMatches(g, 1, 0, Up, Red, RubyIndexing) == -1;
    assert CountMatches(g, 2, 0, Up, Red, RubyIndexing) == 0;
    assert CountMatches(g, 5, 0, Down, Red, RubyIndexing) == -1;
    assert CountMatches(g, 4, 0, Down, Red, RubyIndexing) == 0;
    assert CountMatches(g, 3, 0, Down, Red, RubyIndexing) == 1;
    assert CountMatches(g, 2, 0, Down, Red, RubyIndexing) == 2;
    assert !LineThrough(g, 2, 0, Red, Vertical, RubyIndexing);
    assert CountMatches(g, 2, -2, Left, Red, RubyIndexing) == -1;
    assert CountMatches(g, 2, -1, Left, Red, RubyIndexing) == 0;
    assert CountMatches(g, 2, 0, Left, Red, RubyIndexing) == 1;
    assert CountMatches(g, 2, 1, Right, Red, RubyIndexing) == -1;
    assert CountMatches(g, 2, 0, Right, Red, RubyIndexing) == 0;
    assert !LineThrough(g, 2, 0, Red, Horizontal, RubyIndexing);
    assert CountMatches(g, 1, -1, TopLeft, Red, RubyIndexing) == -1;
    assert CountMatches(g, 2, 0, TopLeft, Red, RubyIndexing) == 0;
    assert CountMatches(g, 3, 1, BotRight, Red, RubyIndexing) == -1;
    assert CountMatches(g, 2, 0, BotRight, Red, RubyIndexing) == 0;
    assert !LineThrough(g, 2, 0, Red, Descending, RubyIndexing);
    assert CountMatches(g, 1, 1, TopRight, Red, RubyIndexing) == -1;
    assert CountMatches(g, 2, 0, TopRight, Red, RubyIndexing) == 0;
    assert CountMatches(g, 4, -2, BotLeft, Red, RubyIndexing) == -1;
    assert CountMatches(g, 3, -1, BotLeft, Red, RubyIndexing) == 0;
    assert CountMatches(g, 2, 0, BotLeft, Red, RubyIndexing) == 1;
    assert !LineThrough(g, 2, 0, Red, Ascending, RubyIndexing);
  }

  // The wrap-around false win

  /** The column red, yellow, yellow, red, red, red, top to bottom, the top
      red dropped last (reachable in play: a red run of three blocked by two
      yellow discs). As written, walking "up" from row 0 reads rows -1, -2,
      -3, that is rows 5, 4, 3, and winner? reports a win although no four
      cells in a row on the board are red; the bounded walk reports none. */
  lemma RubyIndexingFalseWin(g: seq<seq<Colour>>)
    requires g == [[Red], [Yellow], [Yellow], [Red], [Red], [Red]]
    ensures Winner(g, Position(0, 0), RubyIndexing)
    ensures !Winner(g, Position(0, 0), BoundedIndexing)
    ensures !exists axis :: FourOnBoard(g, Position(0, 0), axis)
  {
    assert CountMatches(g, -4, 0, Up, Red, RubyIndexing) == -1;
    assert CountMatches(g, -3, 0, Up, Red, RubyIndexing) == 0;
    assert CountMatches(g, -2, 0, Up, Red, RubyIndexing) == 1;
    assert CountMatches(g, -1, 0, Up, Red, RubyIndexing) == 2;
    assert CountMatches(g, 0, 0, Up, Red, RubyIndexing) == 3;
    assert CountMatches(g, 1, 0, Down, Red, RubyIndexing) == -1;
    assert CountMatches(g, 0, 0, Down, Red, RubyIndexing) == 0;
    assert LineThrough(g, 0, 0, Red, Vertical, RubyIndexing);
    assert CountMatches(g, -1, 0, Up, Red, BoundedIndexing) == -1;
    assert CountMatches(g, 0, 0, Up, Red, BoundedIndexing) == 0;
    assert CountMatches(g, 1, 0, Down, Red, BoundedIndexing) == -1;
    assert CountMatches(g, 0, 0, Down, Red, BoundedIndexing) == 0;
    assert !LineThrough(g, 0, 0, Red, Vertical, BoundedIndexing);
    assert CountMatches(g, 0, -1, Left, Red, BoundedIndexing) == -1;
    assert CountMatches(g, 0, 0, Left, Red, BoundedIndexing) == 0;
    assert CountMatches(g, 0, 1, Right, Red, BoundedIndexing) == -1;
    assert CountMatches(g, 0, 0, Right, Red, BoundedIndexing) == 0;
    assert !LineThrough(g, 0, 0, Red, Horizontal, BoundedIndexing);
    assert CountMatches(g, -1, -1, TopLeft, Red, BoundedIndexing) == -1;
    assert CountMatches(g, 0, 0, TopLeft, Red, BoundedIndexing) == 0;
    assert CountMatches(g, 1, 1, BotRight, Red, BoundedIndexing) == -1;
    assert CountMatches(g, 0, 0, BotRight, Red, BoundedIndexing) == 0;
    assert !LineThrough(g, 0, 0, Red, Descending, BoundedIndexing);
    assert CountMatches(g, -1, 1, TopRight, Red, BoundedIndexing) == -1;
    assert CountMatches(g, 0, 0, TopRight, Red, BoundedIndexing) == 0;
    assert CountMatches(g, 1, -1, BotLeft, Red, BoundedIndexing) == -1;
    assert CountMatches(g, 0, 0, BotLeft, Red, BoundedIndexing) == 0;
    assert !LineThrough(g, 0, 0, Red, Ascending, BoundedIndexing);
    BoundedWinnerIffFourOnBoard(g, Position(0, 0));
  }

  // full?

  /** A board of red discs is full; an empty board is not. */
  method FullScenario() returns (fullOfRed: bool, fullOfEmpty: bool)
    ensures fullOfRed && !fullOfEmpty
  {
    var red := new Board.WithGrid(7, 6, Uniform(Red));
    fullOfRed := red.Full();
    var empty := new Board.WithGrid(7, 6, Uniform(Empty));
    fullOfEmpty := empty.Full();
    assert Uniform(Empty)[0][0] == Empty;
  }

  // The game controller

  /** Switching once hands the turn to yellow; switching again restores red. */
  method SwitchScenario() returns (afterOne: Colour, afterTwo: Colour)
    ensures afterOne == Yellow && afterTwo == Red
  {
    var game := new Game.Standard();
    game.SwitchCurrentPlayer();
    afterOne := game.current;
    game.SwitchCurrentPlayer();
    afterTwo := game.current;
  }

  /** A choice of a full column is retried: the second choice lands at the
      bottom of the empty column after two reads. */
  method RetryScenario() returns (move: Option<Position>, attempts: nat)
    ensures move == Some(Position(1, 1)) && attempts == 2
  {
    var board := new Board.WithGrid(2, 2, [[Yellow, Empty], [Red, Empty]]);
    var game := new Game(board);
    FindLowestEmptyIff(board.grid, 2, 0, -1);
    FindLowestEmptyIff(board.grid, 2, 1, 1);
    assert DropResult(board.grid, 2, 0) == ColumnFull;
    assert DropResult(board.grid, 2, 1) == Placed(Position(1, 1));
    move, attempts := game.ValidMoveLoop([0, 1]);
  }
}
