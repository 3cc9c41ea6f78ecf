# Connect Four board and match controller, modelled in Dafny

This project models the core of a console Connect Four game written in Ruby
(`lib/connect_four.rb`). The game has two parts.

- The **board** is a `height × width` grid of cells. Each cell holds
  `"empty"`, `"red"` or `"yellow"`. A piece dropped into a column settles
  in the lowest empty row (`find_lowest_empty`, `add_piece`). `full?`
  reports whether no cell is empty. `winner?` looks for four in a
  row through the last move.
- The **game** holds the board and two player slots, current and waiting.
  It swaps the slots (`switch_current_player`) and turns the board's
  answers into a status code: 1 for a win, 0 for a tie, 2 to go on
  (`game_status`). It keeps asking for a column until a drop succeeds
  (`valid_move_loop`).

Module `Board` (`board.dfy`) holds the board:

- `Colour` models a cell value. `Position` models a `[row, col]` pair.
  `Drop` models what `add_piece` returns: `-1` becomes `ColumnFull`.
- The grid is a `seq<seq<Colour>>`. The read-only recursions are functions
  over it: `LowestEmptyFrom`/`FindLowestEmpty`, `CountMatches`,
  `LineThrough` (which stands for `vert`/`horz`/`desc`/`asce`) and `Winner`.
- Class `Board` holds `grid`, `width` and `height`. `AddPiece` reassigns
  `grid` and is specified by the functions `Dropped` and `DropResult`.
  `Full` is the summing loop of `full?`.

A lookup in the source is `@grid[row][col]`, and a `nil` stops a walk. Ruby
reads a negative index from the end of the array. `CellAt` therefore takes
an `Indexing` mode:

- `RubyIndexing` reproduces Ruby's indexing exactly: index `i` is present
  iff `-n <= i < n`.
- `BoundedIndexing` is the corrected walk that stops at the edge of the
  board.

Every fact about `CountMatches` and `Winner` is proved for both modes. The
`Game` module uses the bounded mode (see Findings).

Module `Game` (`game.dfy`) holds class `Game`:

- The fields are `board`, `current` and `waiting`.
- Console input is replaced by a sequence of column choices.
- `PlayTurn` models one pass of `game_loop`.

Module `Scenarios` (`scenarios.dfy`) restates the concrete cases of
`spec/connect_four_spec.rb` as lemmas and client methods.

## Model

| member | source | states |
|---|---|---|
| `Board.CellAt` | lib/connect_four.rb:91 | With walks bounded by the board, a cell is read exactly when row and column lie on the board, and nil otherwise. |
| `Board.RubyCellAt` | lib/connect_four.rb:91 | Ruby's lookup: a row or column index in `-n .. -1` reads element `n + index`, and any index outside `-n .. n-1` gives nil. |
| `Board.CountMatches` | lib/connect_four.rb:90-114 | The count is never below -1. It is -1 exactly when the origin cell is nil or holds a different colour. |
| `Board.CountMatchesIsRun` | lib/connect_four.rb:90-114 | When the origin matches, the count is the number of further consecutive cells in the direction that read as `value`: that many match and the next one does not. When the origin does not match, the count is -1. |
| `Board.RunWithinCount` | lib/connect_four.rb:90-114 | When the origin matches, a run of `k` further matching cells exists exactly when `k` is at most the count. |
| `Board.CountMatchesExact` | lib/connect_four.rb:90-114 | A run of exactly `k` further cells, followed by a cell that does not match, forces the count to be `k`. |
| `Board.LineThrough` | lib/connect_four.rb:62-88 | `vert`/`horz`/`desc`/`asce` can only hold when the cell they start from holds the colour being matched. |
| `Board.Winner` | lib/connect_four.rb:49-60 | A win needs at least two further cells of the last move's colour in some single direction from it. |
| `Board.LineThroughIffFour` | lib/connect_four.rb:62-88 | `vert`/`horz`/`desc`/`asce` hold (the two opposite counts sum to more than 2) exactly when a run of at least four cells of the last move's colour lies along that axis through it. |
| `Board.WinnerIffFour` | lib/connect_four.rb:49-60 | `winner?` holds exactly when one of the four axes through the last move carries a run of at least four cells of its colour. Under Ruby's lookups this means four reads along the walk, which may wrap around the board and read a cell twice. |
| `Board.WinnerFromRuns` | lib/connect_four.rb:49-88 | Runs of `a` and `b` further matching cells on the two sides of one axis, with `a + b >= 3`, make `winner?` true. |
| `Board.BoundedWinnerIffFourOnBoard` | lib/connect_four.rb:49-114 | The corrected check: with walks that stop at the edge, `winner?` holds exactly when at least four on-board cells in a row along some axis, the last move among them, all hold its colour. |
| `Board.LowestEmptyFrom` | lib/connect_four.rb:12-20 | Walking down from `row`, the result lies in `row-1 .. height-1`. Every cell from `row` down to the result is empty. The cell just below the result is filled unless the result is the bottom row. |
| `Board.FindLowestEmptyIff` | lib/connect_four.rb:12-20 | `find_lowest_empty` returns `r` exactly when `r` is the row just above the topmost filled cell. That is -1 when the top cell is filled and `height-1` when the column is empty, so the result is always `< height`. |
| `Board.SettledDropRowIsLowest` | lib/connect_four.rb:12-20 | On a board in gravity shape, the row found is the lowest empty cell of the column: every cell below it is filled. |
| `Board.DropPlacesOnePiece` | lib/connect_four.rb:22-27 | On a full column `add_piece` returns `-1` and changes nothing. Otherwise it returns `[r, col]`. The cell `(r, col)` was empty and rests on the bottom or on a filled cell. It now holds the colour, and every other cell and the grid's shape are unchanged. |
| `Board.DropKeepsSettled` | lib/connect_four.rb:12-27 | Dropping a real colour keeps a board in gravity shape: in every column, no empty cell lies below a filled one. |
| `Board.DropFillsOneEmpty` | lib/connect_four.rb:22-27 | A successful drop of a real colour leaves exactly one empty cell fewer in its column. |
| `Board.Board.AddPiece` | lib/connect_four.rb:22-27 | The result is `DropResult` of the old grid. The new grid is `Dropped` of the old grid. The dimensions and `Valid()` (height rows of width cells) are kept. A placed cell was empty before. |
| `Board.EmptiesIn` | lib/connect_four.rb:40 | The per-row count is the number of empty cells in the row (their multiplicity in the row's multiset). So it is at most the row's length, and 0 exactly when no cell of the row is empty. |
| `Board.EmptyCountZero` | lib/connect_four.rb:39-47 | The summed count of empty cells is 0 exactly when no cell of the grid is empty. |
| `Board.Board.Full` | lib/connect_four.rb:39-47 | `full?` returns true exactly when no cell of the grid is empty, and it changes nothing. |
| `Board.Board.constructor` | lib/connect_four.rb:2-10 | `Board.new(width, height)` builds a `height × width` grid of empty cells. |
| `Board.Board.WithGrid` | lib/connect_four.rb:2-6 | `Board.new(width, height, grid)` keeps the injected grid and the two fields as given. |
| `Game.Game.constructor` | lib/connect_four.rb:118-122 | A new game starts with red current and yellow waiting, on the board it is given. |
| `Game.Game.Standard` | lib/connect_four.rb:118-122 | The default game uses a fresh empty board 7 wide and 6 high, with red to move. |
| `Game.Game.SwitchCurrentPlayer` | lib/connect_four.rb:124-126 | The current and waiting players exchange places and nothing else changes, so two switches restore both. |
| `Game.Game.GameStatus` | lib/connect_four.rb:128-136 | The status is 1 when a line of four runs through the last move, even on a full board. It is 0 when there is no such line and no empty cell, and 2 otherwise. It changes nothing. |
| `Game.Game.ValidMoveLoop` | lib/connect_four.rb:138-148 | The choices are offered to `add_piece` in order, and the loop stops at the first column that is not full. It returns that drop's `[row, col]` and the number of choices read. The grid becomes `Dropped` for that column and the current colour. Every earlier choice hit a full column. If every choice hits a full column, the result is `None` and the grid is unchanged. |
| `Game.Game.PlayTurn` | lib/connect_four.rb:150-167 | One pass of `game_loop`. The board's dimensions are unchanged. A placed move comes from the first choice whose column is not full, every earlier choice hit a full column, and the new grid is `Dropped` of the old grid for that column and the current player's colour. A line of four gives `Ended(1)`. No line on a full board gives `Ended(0)`. In both cases the players stay put. Otherwise the result is `Continues` and the players are switched. |
| `Scenarios.LowestOfEmptyBoard` | spec/connect_four_spec.rb:74-79 | On an empty 6-high board, `find_lowest_empty(0)` is 5. |
| `Scenarios.LowestAboveFilledCells` | spec/connect_four_spec.rb:81-115 | With one, two or five filled cells at the bottom of the column, the results are 4, 3 and 0. |
| `Scenarios.LowestOfFullColumn` | spec/connect_four_spec.rb:117-126 | A full column gives -1, and a drop into it leaves the grid unchanged. |
| `Scenarios.VerticalWin` | spec/connect_four_spec.rb:175-185 | Four red at the bottom of a column win from `[2, 0]`. |
| `Scenarios.HorizontalWin` | spec/connect_four_spec.rb:187-197 | Four red at the right of a six-cell row win from `[0, 2]`. |
| `Scenarios.DescendingWin` | spec/connect_four_spec.rb:199-213 | A descending diagonal of four red wins from `[2, 3]`. |
| `Scenarios.AscendingWin` | spec/connect_four_spec.rb:215-229 | An ascending diagonal of four red wins from `[4, 1]`. |
| `Scenarios.ThreeIsNoWin` | spec/connect_four_spec.rb:231-241 | Three red above a yellow is no win. |
| `Scenarios.RubyIndexingFalseWin` | lib/connect_four.rb:90-96 | As written, a column red, yellow, yellow, red, red, red gives a win from `[0, 0]`, although no four on-board cells in a row are red. The bounded walk gives none. |
| `Scenarios.FullScenario` | spec/connect_four_spec.rb:244-266 | A board of red cells is full. An empty board is not. |
| `Scenarios.SwitchScenario` | spec/connect_four_spec.rb:272-284 | From a new game, one switch makes yellow current and a second switch makes red current again. |
| `Scenarios.RetryScenario` | spec/connect_four_spec.rb:355-373 | A full first choice is retried. The second choice lands at the bottom of its column after two reads. |

## Left out

- `display_board` and every `puts` are left out. They only render to the console.
- `gets` is replaced by an explicit sequence of column choices. Any integer conversion of the input is left to the caller.
- `game_loop` is modelled as one turn (`PlayTurn`). The unbounded outer loop is an interactive driver that only repeats that turn.
- The module-level `Game.new` and `game_loop` call is left out. It is process start-up.
- The `"ERROR INCORRECT DIRECTION"` branch of `count_matches` is left out. Directions are an enumeration, so that branch cannot be reached.
- Cells are plain values in a reassigned `seq<seq<Colour>>`, not separate mutable `Cell` objects. Aliasing between cells is not modelled. The source never shares a cell between two positions.
- `Board.Board.AddPiece`: requires `0 <= col < width`. Ruby would also accept `-width <= col < 0` and read the column from the right. A column at or past the width crashes in the source, so it is a precondition here.
- `Game.Game.ValidMoveLoop`: requires every offered choice to be a valid column. The source crashes on an invalid column only when it reaches it. A finite choice sequence that runs out gives `None`, where the source would keep reading input.
- `Game.Game.GameStatus`: uses the corrected bounded `winner?` check (see Findings). The as-written check is `Board.Winner` with `RubyIndexing`, and its properties are proved alongside.
- `Game.Game.PlayTurn`: decides a win with the same corrected bounded check, so on the Findings column it gives `Continues` where the source's `game_loop` announces a win.
- `winner?` is modelled only where the source does not crash. The lookup of the last move must succeed, which the requires of `Board.Winner` states.
- The RSpec mocks (`instance_double`, stubbed return values) are not board behaviour. Only their observable scenarios are restated on real boards.

## Findings

| source | as written | input that shows it | evidently intended | confidence | as-written member | corrected member |
|---|---|---|---|---|---|---|
| lib/connect_four.rb:91 | The `nil` test rejects only indices at or past the end. Ruby reads `@grid[-1]` as the bottom row and `row[-1]` as the last column, so walks up from row 0 or left from column 0 wrap around the board. | Column red, yellow, yellow, red, red, red (top to bottom), last move `[0, 0]`: `winner?` is true through rows 0, 5, 4 and 3. This is reachable in play: red's run of three was blocked by two yellow discs. | A walk stops at the edge of the board, and a win needs four adjacent on-board cells. | high, not executed | `Scenarios.RubyIndexingFalseWin` | `Board.BoundedWinnerIffFourOnBoard` |
