/** The match controller: whose turn it is, how a move is accepted, and how
    a move ends the game. Console input is replaced by a sequence of column
    choices; console output is left out. */
module Game {
  import opened Board

  /** The codes game_status returns. */
  const TIE := 0
  const WIN := 1
  const ONGOING := 2

  /** How one pass through the body of game_loop ends. */
  datatype Turn =
    | OutOfChoices     // every column choice offered hit a full column
    | Ended(status: int)  // game_status said TIE or WIN: the loop breaks
    | Continues        // game_status said ONGOING: the other player moves next

  class Game {
    var board: Board
    var current: Colour
    var waiting: Colour

    /** Game.new(board): red moves first, yellow waits. */
    constructor (board: Board)
      ensures this.board == board && current == Red && waiting == Yellow
    {
      this.board := board;
      current := Red;
      waiting := Yellow;
    }

    /** Game.new: the default 7-wide, 6-high empty board. */
    constructor Standard()
      ensures fresh(board) && board.Valid() && board.width == 7 && board.height == 6
      ensures forall r, c :: 0 <= r < 6 && 0 <= c < 7 ==> board.grid[r][c] == Empty
      ensures current == Red && waiting == Yellow
    {
      board := new Board(7, 6);
      current := Red;
      waiting := Yellow;
    }

    /** switch_current_player: the current and waiting players trade places. */
    method SwitchCurrentPlayer()
      modifies this
      ensures current == old(waiting) && waiting == old(current) && board == old(board)
    {
      current, waiting := waiting, current;
    }

    /** game_status: WIN when a line of four on the board runs through the
        last move (whether or not the board is full), TIE when there is no
        such line and no empty cell, ONGOING otherwise. */
    method GameStatus(lastMove: Position) returns (status: int)
      requires 0 <= lastMove.row < |board.grid| && 0 <= lastMove.col < |board.grid[lastMove.row]|
      ensures status == WIN <==> exists axis :: FourOnBoard(board.grid, lastMove, axis)
      ensures status == TIE <==>
        !(exists axis :: FourOnBoard(board.grid, lastMove, axis)) && NoEmptyCell(board.grid)
      ensures status == ONGOING <==>
        !(exists axis :: FourOnBoard(board.grid, lastMove, axis)) && !NoEmptyCell(board.grid)
    {
      BoundedWinnerIffFourOnBoard(board.grid, lastMove);
      if Winner(board.grid, lastMove, BoundedIndexing) {
        return WIN;
      }
      var full := board.Full();
      status := if full then TIE else ONGOING;
    }

    /** valid_move_loop: offers the choices in order to add_piece on behalf
        of the current player and stops at the first one whose column is not
        full; `attempts` is how many choices were read. */
    method ValidMoveLoop(choices: seq<int>) returns (move: Option<Position>, attempts: nat)
      requires board.Valid() && 0 < board.height
      requires forall k :: 0 <= k < |choices| ==> 0 <= choices[k] < board.width
      modifies board
      ensures board.Valid() && board.width == old(board.width) && board.height == old(board.height)
      ensures forall k :: 0 <= k < |choices| ==> ColumnIn(old(board.grid), board.height, choices[k])
      ensures attempts <= |choices|
      ensures forall k :: 0 <= k < attempts && (move.None? || k < attempts - 1) ==>
        DropResult(old(board.grid), board.height, choices[k]) == ColumnFull
      ensures move.None? ==> attempts == |choices| && board.grid == old(board.grid)
      ensures move.Some? ==>
        && 0 < attempts
        && DropResult(old(board.grid), board.height, choices[attempts - 1]) == Placed(move.value)
        && board.grid == Dropped(old(board.grid), board.height, choices[attempts - 1], current)
        && 0 <= move.value.row < |board.grid| && 0 <= move.value.col < |board.grid[move.value.row]|
        && board.grid[move.value.row][move.value.col] == current
    {
      attempts := 0;
      while attempts < |choices|
        invariant attempts <= |choices|
        invariant board.Valid() && board.width == old(board.width) && board.height == old(board.height)
        invariant board.grid == old(board.grid)
        invariant forall k :: 0 <= k < attempts ==>
          DropResult(old(board.grid), board.height, choices[k]) == ColumnFull
      {
        var col := choices[attempts];
        DropPlacesOnePiece(board.grid, board.height, col, current);
        var result := board.AddPiece(col, current);
        attempts := attempts + 1;
        if result.Placed? {
          return Some(result.pos), attempts;
        }
      }
      move := None;
    }

    /** One pass through the body of game_loop: read a move, then stop on
        WIN or TIE, or hand the turn to the other player on ONGOING. */
    method PlayTurn(choices: seq<int>) returns (outcome: Turn, move: Option<Position>)
      requires board.Valid() && 0 < board.height
      requires forall k :: 0 <= k < |choices| ==> 0 <= choices[k] < board.width
      modifies this, board
      ensures board == old(board) && board.Valid()
      ensures board.width == old(board.width) && board.height == old(board.height)
      ensures move.None? <==> outcome == OutOfChoices
      ensures outcome.Ended? ==> outcome.status == WIN || outcome.status == TIE
      ensures move.None? ==> board.grid == old(board.grid)
      ensures move.Some? ==>
        && 0 <= move.value.row < |board.grid| && 0 <= move.value.col < |board.grid[move.value.row]|
        && board.grid[move.value.row][move.value.col] == old(current)
        && (exists k ::
              && 0 <= k < |choices|
              && (forall j :: 0 <= j < k ==> DropResult(old(board.grid), board.height, choices[j]) == ColumnFull)
              && DropResult(old(board.grid), board.height, choices[k]) == Placed(move.value)
              && board.grid == Dropped(old(board.grid), board.height, choices[k], old(current)))
        && (outcome == Ended(WIN) <==> exists axis :: FourOnBoard(board.grid, move.value, axis))
        && (outcome == Ended(TIE) <==>
              !(exists axis :: FourOnBoard(board.grid, move.value, axis)) && NoEmptyCell(board.grid))
      ensures outcome == Continues ==> current == old(waiting) && waiting == old(current)
      ensures outcome != Continues ==> current == old(current) && waiting == old(waiting)
    {
      var attempts;
      move, attempts := ValidMoveLoop(choices);
      if move.None? {
        return OutOfChoices, move;
      }
      var status := GameStatus(move.value);
      if status == ONGOING {
        SwitchCurrentPlayer();
        outcome := Continues;
      } else {
        outcome := Ended(status);
      }
    }
  }
}
