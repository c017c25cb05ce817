/**
  What the engine promises its caller, stated over board strings: which
  boards it refuses, that an answer adds exactly one 'o' over a blank, and
  the priority of a win, a block and a fork.
*/
module EngineProperties {
  import opened Wrappers
  import opened Tables
  import opened Boards
  import opened Threats
  import opened Forks
  import opened Strategy

  /** An accepted board holds ' ' exactly at its blank cells and 'o' exactly at o's cells. */
  lemma ParsedCells(board: string, d: Board, i: int)
    requires Parse(board) == Some(d) && 0 <= i < 9
    ensures board[i] == ' ' <==> i in d.blank
    ensures board[i] == 'o' <==> i in d.o
    ensures board[i] == 'x' <==> i in d.x
  {
  }

  /** After an 'o' is written at `c`, o holds its old cells and `c`. */
  lemma PlacedOCells(board: string, d: Board, c: int)
    requires Parse(board) == Some(d) && 0 <= c < 9
    ensures CellsOf(board[c := 'o'], 'o') == d.o + {c}
  {
    var out := board[c := 'o'];
    forall i | 0 <= i < 9
      ensures i in CellsOf(out, 'o') <==> i in d.o + {c}
    {
      ParsedCells(board, d, i);
    }
  }

  /** The board is refused (HTTP 400) exactly when it is malformed or x already holds a line. */
  lemma EvaluateRejects(board: string)
    ensures Evaluate(board) == Failure(BadRequest) <==>
      Parse(board).None? || Winning(Parse(board).value, 'x')
  {
  }

  /**
    An answer keeps the length and writes one 'o' over a blank, so it has one
    more 'o', one blank fewer and the same x's; when o already holds a line
    the answer is the input itself.
  */
  lemma EvaluateMovesOnce(board: string)
    requires Evaluate(board).Success?
    ensures Parse(board).Some?
    ensures Winning(Parse(board).value, 'o') ==> Evaluate(board).value == board
    ensures !Winning(Parse(board).value, 'o') ==>
      exists i :: 0 <= i < |board| && board[i] == ' ' && Evaluate(board).value == board[i := 'o']
    ensures !Winning(Parse(board).value, 'o') ==>
      var out := Evaluate(board).value;
      && Count(out, 'o') == Count(board, 'o') + 1
      && Count(out, ' ') == Count(board, ' ') - 1
      && Count(out, 'x') == Count(board, 'x')
  {
    var d := Parse(board).value;
    var c := Choose(d).value;
    var out := Evaluate(board).value;
    assert out == board[c := 'o'];
    ParsedCells(board, d, c);
    if Winning(d, 'o') {
      assert board[c] == 'o';
    } else {
      assert board[c] == ' ';
      CountUpdate(board, c, 'o', 'o');
      CountUpdate(board, c, 'o', ' ');
      CountUpdate(board, c, 'o', 'x');
    }
  }

  /** When o already holds a line (and x does not), the board comes back unchanged. */
  lemma OWonAnswersSameBoard(board: string)
    requires Parse(board).Some?
    requires !Winning(Parse(board).value, 'x') && Winning(Parse(board).value, 'o')
    ensures Evaluate(board) == Success(board)
  {
    var d := Parse(board).value;
    var c := Choose(d).value;
    ParsedCells(board, d, c);
    assert board[c := 'o'] == board;
  }

  /** With a single blank and no line for either side, that blank is filled. */
  lemma LastBlankIsFilled(board: string, i: int)
    requires Parse(board).Some?
    requires !Winning(Parse(board).value, 'x') && !Winning(Parse(board).value, 'o')
    requires Count(board, ' ') == 1 && 0 <= i < |board| && board[i] == ' '
    ensures Evaluate(board) == Success(board[i := 'o'])
    ensures Count(Evaluate(board).value, ' ') == 0
  {
    var d := Parse(board).value;
    CardCellsOf(board, ' ');
    assert i in d.blank;
    CountUpdate(board, i, 'o', ' ');
  }

  /** On the empty board o takes the center. */
  lemma EmptyBoardTakesCenter()
    ensures Evaluate("         ") == Success("    o    ")
  {
    var board := "         ";
    assert forall i :: 0 <= i < 9 ==> board[i] == ' ';
    assert CellsOf(board, ' ') == AllCells;
    assert CellsOf(board, 'x') == {};
    assert CellsOf(board, 'o') == {};
    assert AllCells == {0, 1, 2, 3, 4, 5, 6, 7, 8};
    assert Parse(board).Some?;
    var d := Parse(board).value;
    assert |d.blank| == 9;
    LineHolderNonEmpty(d.x);
    LineHolderNonEmpty(d.o);
    assert Trivial(d) == Play(Center);
    assert PutO(board, Center) == "    o    ";
  }

  /** The board is past its trivial cases: nobody holds a line, and it has
      more than one blank but is not empty. */
  predicate Contested(d: Board) {
    !Winning(d, 'x') && !Winning(d, 'o') && 1 < |d.blank| < 9
  }

  /** A win for o (at a cell other than 0) is taken, and the answer holds a whole o line. */
  lemma WinIsTaken(board: string, c: int)
    requires Parse(board).Some? && Contested(Parse(board).value)
    requires CanWin(Parse(board).value, 'o') == Some(c) && c != 0
    ensures Evaluate(board) == Success(board[c := 'o'])
    ensures HasLine(CellsOf(board[c := 'o'], 'o'))
  {
    var d := Parse(board).value;
    assert Choose(d) == Success(c);
    CanWinCompletesLine(d, 'o');
    PlacedOCells(board, d, c);
  }

  /** With no win of its own, o blocks x's win (at a cell other than 0): the
      cell it takes would have completed an x line. */
  lemma WinIsBlocked(board: string, c: int)
    requires Parse(board).Some? && Contested(Parse(board).value)
    requires !Truthy(CanWin(Parse(board).value, 'o'))
    requires CanWin(Parse(board).value, 'x') == Some(c) && c != 0
    ensures Evaluate(board) == Success(board[c := 'o'])
    ensures board[c] == ' ' && HasLine(CellsOf(board, 'x') + {c})
  {
    var d := Parse(board).value;
    CanWinCompletesLine(d, 'x');
    ParsedCells(board, d, c);
  }

  /** With no win or block, o plays its own fork (at a cell other than 0): a
      blank on two lines free of x that already hold an o. */
  lemma ForkIsPlayed(board: string, c: int)
    requires Parse(board).Some? && Contested(Parse(board).value)
    requires !Truthy(CanWin(Parse(board).value, 'o')) && !Truthy(CanWin(Parse(board).value, 'x'))
    requires Fork(Parse(board).value, 'o') == Some(c) && c != 0
    ensures Evaluate(board) == Success(board[c := 'o'])
    ensures board[c] == ' ' && DistinctThreatLines(c, CellsOf(board, 'o'), CellsOf(board, 'x'))
  {
    var d := Parse(board).value;
    ForkCellMeansTwoLines(d, 'o', c);
    ParsedCells(board, d, c);
  }

  /** Failing all of that, o occupies x's fork cell (other than 0): a blank on
      two lines free of o that already hold an x. */
  lemma ForkIsBlocked(board: string, c: int)
    requires Parse(board).Some? && Contested(Parse(board).value)
    requires !Truthy(CanWin(Parse(board).value, 'o')) && !Truthy(CanWin(Parse(board).value, 'x'))
    requires !Truthy(Fork(Parse(board).value, 'o'))
    requires Fork(Parse(board).value, 'x') == Some(c) && c != 0
    ensures Evaluate(board) == Success(board[c := 'o'])
    ensures board[c] == ' ' && DistinctThreatLines(c, CellsOf(board, 'x'), CellsOf(board, 'o'))
  {
    var d := Parse(board).value;
    ForkCellMeansTwoLines(d, 'x', c);
    ParsedCells(board, d, c);
  }

  /** No win, block, fork or fork block is taken: each detector finds
      nothing, or only cell 0, which the source's truth test skips. */
  predicate NoThreats(d: Board)
    requires d.Valid()
  {
    && !Truthy(CanWin(d, 'o')) && !Truthy(CanWin(d, 'x'))
    && !Truthy(Fork(d, 'o')) && !Truthy(Fork(d, 'x'))
  }

  /** No x corner faces a blank corner across the board. */
  predicate NoOpenOpposite(d: Board) {
    forall k :: k in Corners && k in d.x ==> KittyCorners[k] !in d.blank
  }

  /** With nothing to win or block, a blank center is taken. */
  lemma CenterIsTaken(board: string, d: Board)
    requires Parse(board) == Some(d) && Contested(d) && NoThreats(d)
    requires board[Center] == ' '
    ensures Evaluate(board) == Success(board[Center := 'o'])
  {
    ParsedCells(board, d, Center);
    assert Trivial(d) == NotTrivial;
    assert Choose(d) == Success(Center);
  }

  /** When the chain picks `c`, the engine writes an 'o' at `c`; a blank
      cell of the parsed board is a ' ' of the string. */
  lemma EvaluatePlays(board: string, d: Board, c: int)
    requires Parse(board) == Some(d) && Choose(d) == Success(c)
    ensures 0 <= c < |board| && Evaluate(board) == Success(board[c := 'o'])
    ensures c in d.blank ==> board[c] == ' '
  {
    ParsedCells(board, d, c);
  }

  /** Next, a blank corner facing an x corner is taken. */
  lemma OppositeCornerIsTaken(d: Board, k: int)
    requires d.Valid() && Contested(d) && NoThreats(d)
    requires Center !in d.blank
    requires k in Corners && k in d.x && KittyCorners[k] in d.blank
    ensures Choose(d).Success? && Choose(d).value in d.blank * Corners
    ensures exists k' :: k' in d.x * Corners && KittyCorners[k'] == Choose(d).value
  {
    assert k in d.x * Corners;
    assert Trivial(d) == NotTrivial;
  }

  /** Next, the lowest blank corner is taken, provided corner 0 is not
      blank (the source's truth test would skip it). */
  lemma EmptyCornerIsTaken(d: Board)
    requires d.Valid() && Contested(d) && NoThreats(d)
    requires Center !in d.blank && NoOpenOpposite(d)
    requires 0 !in d.blank && d.blank * Corners != {}
    ensures Choose(d).Success? && Choose(d).value in d.blank * Corners
    ensures forall j :: j in d.blank * Corners ==> Choose(d).value <= j
  {
    assert Trivial(d) == NotTrivial;
    assert OppositeCorner(d).None?;
  }

  /** Last, when corner 0 is blank (and so the lowest blank corner, which
      the truth test skips), the lowest blank side is taken. */
  lemma SideIsTaken(d: Board)
    requires d.Valid() && Contested(d) && NoThreats(d)
    requires Center !in d.blank && NoOpenOpposite(d)
    requires 0 in d.blank && d.blank * Sides != {}
    ensures Choose(d).Success? && Choose(d).value in d.blank * Sides
    ensures forall j :: j in d.blank * Sides ==> Choose(d).value <= j
  {
    assert Trivial(d) == NotTrivial;
    assert OppositeCorner(d).None?;
    assert 0 in d.blank * Corners;
    assert Lowest(d.blank * Corners) == 0;
  }

  /** The converse of `Choose`'s `EmptyPop` postcondition: once the chain
      passes the opposite-corner step with no blank corner, or with corner 0
      blank (popped, then skipped as falsy) and no blank side, `pop()` on an
      empty set fails. */
  lemma EmptyPopWhenNoCorner(d: Board)
    requires d.Valid() && Contested(d) && NoThreats(d)
    requires Center !in d.blank && NoOpenOpposite(d)
    requires d.blank * Corners == {} || (0 in d.blank && d.blank * Sides == {})
    ensures Choose(d) == Failure(EmptyPop)
  {
    assert Trivial(d) == NotTrivial;
    assert OppositeCorner(d).None?;
    if d.blank * Corners != {} {
      assert 0 in d.blank * Corners;
      assert Lowest(d.blank * Corners) == 0;
    }
  }

  /** Two x's in the top row and an o in the center: o blocks the row at cell 2. */
  lemma TopRowIsBlocked()
    ensures Evaluate("xx  o    ") == Success("xxo o    ")
  {
    var board := "xx  o    ";
    TopRowParses();
    TopRowContested();
    TopRowThreats();
    WinIsBlocked(board, 2);
    TopRowAnswer();
  }

  /** The board of `TopRowIsBlocked`, parsed. */
  const TopRow: Board := Board({0, 1}, {2, 3, 5, 6, 7, 8}, {4})

  lemma TopRowParses()
    ensures Parse("xx  o    ") == Some(TopRow)
  {
    var board := "xx  o    ";
    assert forall i :: 0 <= i < 9 ==> IsMark(board[i]);
    assert CellsOf(board, 'x') == TopRow.x;
    assert CellsOf(board, 'o') == TopRow.o;
    assert CellsOf(board, ' ') == TopRow.blank;
  }

  lemma TopRowContested()
    ensures Contested(TopRow)
  {
    assert |TopRow.blank| == 6;
    LineHolderNonEmpty(TopRow.o);
    assert !Winning(TopRow, 'x');
  }

  lemma TopRowAnswer()
    ensures "xx  o    "[2 := 'o'] == "xxo o    "
  {
    var out := "xx  o    "[2 := 'o'];
    forall i | 0 <= i < 9
      ensures out[i] == "xxo o    "[i]
    {
    }
  }

  /** On that board x threatens the top row and o cannot win yet. */
  lemma TopRowThreats()
    ensures CanWin(TopRow, 'o').None? && CanWin(TopRow, 'x') == Some(2)
  {
    OneMarkCannotWin(TopRow, 'o');
    assert Wins[0] - TopRow.x == {2};
  }

  /** Two x's with no o at all cannot have come from o's turn, and is refused. */
  lemma TwoAheadIsRefused()
    ensures Evaluate("xx       ") == Failure(BadRequest)
  {
    var board := "xx       ";
    assert CellsOf(board, 'x') == {0, 1};
    assert CellsOf(board, 'o') == {};
  }

  /** A board where x holds the top row is refused. */
  lemma XLineIsRefused()
    ensures Evaluate("xxx oo   ") == Failure(BadRequest)
  {
    var board := "xxx oo   ";
    assert forall i :: 0 <= i < 9 ==> IsMark(board[i]);
    assert CellsOf(board, 'x') == {0, 1, 2};
    assert CellsOf(board, 'o') == {4, 5};
    assert CellsOf(board, ' ') == {3, 6, 7, 8};
    var d := Parse(board).value;
    assert Wins[0] <= d.x;
  }
}
