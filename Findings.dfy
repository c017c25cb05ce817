/**
  Two defects of tic.py's decision chain, each shown on a concrete board
  against the chain as written (`Strategy.Evaluate`), and the chain as
  evidently intended (`ChooseIntended`, `EvaluateIntended`) with the
  property that fails for the original proved for all boards.

  1. The chain tests the found cell for truth, so a win, block or fork at
     cell 0 counts as "none found" and is skipped.
  2. When no corner is blank, `pop()` on the empty set of blank corners
     raises instead of falling through to the sides.
*/
module Findings {
  import opened Wrappers
  import opened Tables
  import opened Boards
  import opened Threats
  import opened Forks
  import opened Strategy
  import opened EngineProperties

  /** On a valid board without a blank center or corner, some side is blank. */
  lemma SideLeft(d: Board)
    requires d.Valid() && d.blank != {}
    requires Center !in d.blank && d.blank * Corners == {}
    ensures d.blank * Sides != {}
  {
    TablesWellFormed();
    var c :| c in d.blank;
    assert c in Sides;
  }

  /**
    The decision chain as intended: a found cell counts whatever its index,
    and when no corner is blank a side is played.
  */
  function ChooseIntended(d: Board): (r: Result<int, Error>)
    requires d.Valid() && d.blank != {}
    ensures r.Failure? <==> Winning(d, 'x')
    ensures r.Success? ==> 0 <= r.value < 9
    ensures r.Success? && Winning(d, 'o') ==> r.value in d.o
    ensures r.Success? && !Winning(d, 'o') ==> r.value in d.blank
  {
    match Trivial(d)
    case Abort => Failure(BadRequest)
    case Play(c) => Success(c)
    case NotTrivial =>
      var oWins := CanWin(d, 'o');
      if oWins.Some? then
        CanWinCompletesLine(d, 'o');
        Success(oWins.value)
      else
        var xWins := CanWin(d, 'x');
        if xWins.Some? then
          CanWinCompletesLine(d, 'x');
          Success(xWins.value)
        else
          var oForks := Fork(d, 'o');
          if oForks.Some? then Success(oForks.value)
          else
            var xForks := Fork(d, 'x');
            if xForks.Some? then Success(xForks.value)
            else if Center in d.blank then Success(Center)
            else
              match OppositeCorner(d)
              case Some(c) => Success(c)
              case None =>
                var corners := d.blank * Corners;
                if corners != {} then Success(Lowest(corners))
                else
                  SideLeft(d);
                  Success(Lowest(d.blank * Sides))
  }

  /** The engine with the intended decision chain: it never fails on an
      empty `pop()`, and an answer changes at most one blank into an 'o'. */
  function EvaluateIntended(board: string): (r: Result<string, Error>)
    ensures r.Failure? ==> r.error == BadRequest
    ensures r.Failure? <==> Parse(board).None? || Winning(Parse(board).value, 'x')
    ensures r.Success? ==> AtMostOneO(board, r.value)
  {
    match Parse(board)
    case None => Failure(BadRequest)
    case Some(d) =>
      match ChooseIntended(d)
      case Failure(e) => Failure(e)
      case Success(c) => Success(PutO(board, c))
  }

  /** The intended engine answers every accepted board x has not won, and its
      answer writes one 'o' over a blank unless o has already won. */
  lemma IntendedAlwaysAnswers(board: string)
    requires Parse(board).Some? && !Winning(Parse(board).value, 'x')
    ensures EvaluateIntended(board).Success?
    ensures var out := EvaluateIntended(board).value;
      if Winning(Parse(board).value, 'o') then out == board
      else exists i :: 0 <= i < 9 && board[i] == ' ' && out == board[i := 'o']
  {
    var d := Parse(board).value;
    var c := ChooseIntended(d).value;
    ParsedCells(board, d, c);
    if Winning(d, 'o') {
      assert board[c := 'o'] == board;
    }
  }

  /** The intended engine never misses a win: whenever o can complete a line
      on a contested board, its answer holds a whole o line. */
  lemma IntendedNeverMissesWin(board: string, c: int)
    requires Parse(board).Some? && Contested(Parse(board).value)
    requires c in Parse(board).value.blank && HasLine(CellsOf(board, 'o') + {c})
    ensures EvaluateIntended(board).Success?
    ensures HasLine(CellsOf(EvaluateIntended(board).value, 'o'))
  {
    var d := Parse(board).value;
    var j :| 0 <= j < |Wins| && Wins[j] <= d.o + {c};
    if CanWin(d, 'o').None? {
      NoWinMeansNoCompletingMove(d, 'o', c, j);
      assert false;
    }
    var w := CanWin(d, 'o').value;
    CanWinCompletesLine(d, 'o');
    assert ChooseIntended(d) == Success(w);
    PlacedOCells(board, d, w);
  }

  // ---- Finding 1: a win at cell 0 is skipped ----

  /** o holds cells 1 and 2, so cell 0 wins the top row. */
  const ZeroWin: Board := Board({3, 4, 6}, {0, 5, 7, 8}, {1, 2})

  lemma ZeroWinParses()
    ensures Parse(" ooxx x  ") == Some(ZeroWin)
  {
    var board := " ooxx x  ";
    assert forall i :: 0 <= i < 9 ==> IsMark(board[i]);
    assert CellsOf(board, 'x') == ZeroWin.x;
    assert CellsOf(board, 'o') == ZeroWin.o;
    assert CellsOf(board, ' ') == ZeroWin.blank;
  }

  lemma ZeroWinContested()
    ensures Contested(ZeroWin)
  {
    assert |ZeroWin.blank| == 4;
    assert !Winning(ZeroWin, 'o');
    assert !Winning(ZeroWin, 'x');
  }

  lemma ZeroWinThreats()
    ensures CanWin(ZeroWin, 'o') == Some(0) && CanWin(ZeroWin, 'x') == Some(5)
  {
    assert Wins[0] - ZeroWin.o == {0};
    assert |Wins[0] - ZeroWin.x| == 3;
    assert Wins[1] - ZeroWin.x == {5};
  }

  lemma ZeroWinAnswers()
    ensures " ooxx x  "[5 := 'o'] == " ooxxox  "
    ensures " ooxx x  "[0 := 'o'] == "oooxx x  "
  {
    var blocked, won := " ooxx x  "[5 := 'o'], " ooxx x  "[0 := 'o'];
    forall i | 0 <= i < 9
      ensures blocked[i] == " ooxxox  "[i] && won[i] == "oooxx x  "[i]
    {
    }
  }

  /**
    As written: o could complete the top row at cell 0, but the chain reads
    cell 0 as "no win" and blocks x at cell 5, leaving o without a line.
  */
  lemma ZeroWinSkipped()
    ensures CanWin(ZeroWin, 'o') == Some(0)
    ensures Evaluate(" ooxx x  ") == Success(" ooxxox  ")
    ensures !HasLine(CellsOf(" ooxxox  ", 'o'))
  {
    var board := " ooxx x  ";
    ZeroWinParses();
    ZeroWinContested();
    ZeroWinThreats();
    WinIsBlocked(board, 5);
    ZeroWinAnswers();
    ZeroWinAnswerHasNoLine();
  }

  /** The answer of `ZeroWinSkipped` gives o cells 1, 2 and 5: no line. */
  lemma ZeroWinAnswerHasNoLine()
    ensures !HasLine(CellsOf(" ooxxox  ", 'o'))
  {
    var out := " ooxxox  ";
    assert CellsOf(out, 'o') == {1, 2, 5};
    TablesWellFormed();
  }

  /** Intended: the same board is answered with the win at cell 0. */
  lemma ZeroWinTaken()
    ensures EvaluateIntended(" ooxx x  ") == Success("oooxx x  ")
  {
    ZeroWinParses();
    ZeroWinContested();
    ZeroWinThreats();
    ZeroWinAnswers();
    assert ChooseIntended(ZeroWin) == Success(0);
  }

  // ---- Finding 2: no blank corner, and pop() raises ----

  /** Every corner and the center are taken; the blanks are sides 1 and 7. */
  const NoCorner: Board := Board({0, 4, 5, 6}, {1, 7}, {2, 3, 8})

  lemma NoCornerParses()
    ensures Parse("x ooxxx o") == Some(NoCorner)
  {
    var board := "x ooxxx o";
    assert forall i :: 0 <= i < 9 ==> IsMark(board[i]);
    assert CellsOf(board, 'x') == NoCorner.x;
    assert CellsOf(board, 'o') == NoCorner.o;
    assert CellsOf(board, ' ') == NoCorner.blank;
  }

  lemma NoCornerContested()
    ensures Contested(NoCorner)
  {
    assert |NoCorner.blank| == 2;
    assert !Winning(NoCorner, 'o');
    assert !Winning(NoCorner, 'x');
  }

  /** Every line lacks a cell o cannot use, or lacks more than one. */
  lemma NoCornerNoWinForO()
    ensures CanWin(NoCorner, 'o').None?
  {
    var mine := NoCorner.o;
    assert Wins[0] - mine == {0, 1};
    assert Wins[1] - mine == {4, 5};
    assert Wins[2] - mine == {6, 7};
    assert Wins[3] - mine == {0, 6};
    assert Wins[4] - mine == {1, 4, 7};
    assert Wins[5] - mine == {5};
    assert Wins[6] - mine == {0, 4};
    assert Wins[7] - mine == {4, 6};
  }

  /** Likewise for x. */
  lemma NoCornerNoWinForX()
    ensures CanWin(NoCorner, 'x').None?
  {
    var mine := NoCorner.x;
    assert Wins[0] - mine == {1, 2};
    assert Wins[1] - mine == {3};
    assert Wins[2] - mine == {7, 8};
    assert Wins[3] - mine == {3};
    assert Wins[4] - mine == {1, 7};
    assert Wins[5] - mine == {2, 8};
    assert Wins[6] - mine == {8};
    assert Wins[7] - mine == {2};
  }

  lemma NoCornerNoFork(xo: char)
    requires IsSide(xo)
    ensures Fork(NoCorner, xo).None?
  {
    var mine, theirs := Marks(NoCorner, xo), Marks(NoCorner, Opponent(xo));
    forall c | c in NoCorner.blank
      ensures !IsForkCell(NoCorner, xo, c)
    {
      forall j | 0 <= j < |Wins| && ThreatLine(Wins[j], c, mine, theirs)
        ensures j == 4
      {
      }
      ThreatCountAtMostOne(c, mine, theirs, |Wins|);
    }
  }

  /** With only line 4 (the middle column) able to qualify, the count stays at most one. */
  lemma {:induction false} ThreatCountAtMostOne(c: int, mine: set<int>, theirs: set<int>, k: nat)
    requires k <= |Wins|
    requires forall j :: 0 <= j < |Wins| && ThreatLine(Wins[j], c, mine, theirs) ==> j == 4
    ensures ThreatCount(c, mine, theirs, k) <= 1
    ensures k <= 4 ==> ThreatCount(c, mine, theirs, k) == 0
  {
    if k > 0 {
      ThreatCountAtMostOne(c, mine, theirs, k - 1);
    }
  }

  /**
    As written: a legal board that x has not won, with only sides blank; the
    chain reaches the empty-corner `pop()` and fails instead of answering.
  */
  lemma EmptyCornerPopFails()
    ensures Parse("x ooxxx o") == Some(NoCorner) && !Winning(NoCorner, 'x')
    ensures Evaluate("x ooxxx o") == Failure(EmptyPop)
  {
    NoCornerParses();
    NoCornerContested();
    NoCornerChoice();
  }

  /** On that board every step of the chain finds nothing up to the corners. */
  lemma NoCornerChoice()
    ensures Choose(NoCorner) == Failure(EmptyPop)
  {
    NoCornerQuiet();
  }

  /** Center taken, both x corners face an o, and no corner is blank. */
  lemma NoCornerFallbacks()
    ensures Center !in NoCorner.blank
    ensures OppositeCorner(NoCorner).None?
    ensures NoCorner.blank * Corners == {}
  {
  }

  /** Intended: the same board is answered on side 1, the lowest blank side. */
  lemma EmptyCornerAnswered()
    ensures EvaluateIntended("x ooxxx o") == Success("xoooxxx o")
  {
    NoCornerParses();
    NoCornerIntendedChoice();
    NoCornerAnswer();
  }

  /** The intended chain passes every step up to the sides and plays side 1. */
  lemma NoCornerIntendedChoice()
    ensures ChooseIntended(NoCorner) == Success(1)
  {
    NoCornerQuiet();
    assert NoCorner.blank * Sides == {1, 7};
  }

  /** On that board no step before the corners finds a cell, for either chain. */
  lemma NoCornerQuiet()
    ensures Trivial(NoCorner) == NotTrivial
    ensures CanWin(NoCorner, 'o').None? && CanWin(NoCorner, 'x').None?
    ensures Fork(NoCorner, 'o').None? && Fork(NoCorner, 'x').None?
    ensures Center !in NoCorner.blank && OppositeCorner(NoCorner).None?
    ensures NoCorner.blank * Corners == {}
  {
    NoCornerContested();
    NoCornerNoWinForO();
    NoCornerNoWinForX();
    NoCornerNoFork('o');
    NoCornerNoFork('x');
    NoCornerFallbacks();
  }

  lemma NoCornerAnswer()
    ensures "x ooxxx o"[1 := 'o'] == "xoooxxx o"
  {
    var out := "x ooxxx o"[1 := 'o'];
    forall i | 0 <= i < 9
      ensures out[i] == "xoooxxx o"[i]
    {
    }
  }
}
