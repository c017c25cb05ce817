/**
  The move engine (tic.py `trivial_case`, `o_ith` and the decision chain of
  `upboard`). It always plays for 'o'. Given a board string it answers the
  board with one more 'o', or stops: `abort(400)` becomes
  `Failure(BadRequest)`, and the KeyError that `pop()` raises on an empty set
  becomes `Failure(EmptyPop)`.
*/
module Strategy {
  import opened Wrappers
  import opened Tables
  import opened Boards
  import opened Threats
  import opened Forks

  /** Why evaluation produced no board. */
  datatype Error = BadRequest | EmptyPop

  /** The three outcomes of `trivial_case`. */
  datatype Shortcut = Abort | Play(cell: int) | NotTrivial

  /** A side holding a whole line holds some cell. */
  lemma LineHolderNonEmpty(cells: set<int>)
    ensures HasLine(cells) ==> cells != {}
  {
    if HasLine(cells) {
      TablesWellFormed();
      var j :| 0 <= j < |Wins| && Wins[j] <= cells;
      assert |Wins[j]| == 3;
    }
  }

  /** Nine blanks on a valid board leave the center blank. */
  lemma FullBlankHasCenter(d: Board)
    requires d.Valid() && |d.blank| == 9
    ensures Center in d.blank
  {
    assert AllCells == {0, 1, 2, 3, 4, 5, 6, 7, 8};
  }

  /**
    `trivial_case`: stop when x has a line; when o has one, answer a cell o
    already holds; with a single blank, that blank; with nine, the center.
  */
  function Trivial(d: Board): (r: Shortcut)
    requires d.Valid()
    ensures r == Abort <==> Winning(d, 'x')
    ensures r == NotTrivial <==> !Winning(d, 'x') && !Winning(d, 'o') && |d.blank| != 1 && |d.blank| != 9
    ensures r.Play? && Winning(d, 'o') ==> r.cell in d.o
    ensures r.Play? && !Winning(d, 'o') ==> r.cell in d.blank
    ensures r.Play? && !Winning(d, 'o') && |d.blank| == 1 ==> d.blank == {r.cell}
    ensures r.Play? && !Winning(d, 'o') && |d.blank| == 9 ==> r.cell == Center
  {
    if Winning(d, 'x') then Abort
    else if Winning(d, 'o') then
      LineHolderNonEmpty(d.o);
      Play(Lowest(d.o))
    else if |d.blank| == 1 then
      var c := Lowest(d.blank);
      SingleCell(d.blank, c);
      Play(c)
    else if |d.blank| == 9 then
      FullBlankHasCenter(d);
      Play(Center)
    else NotTrivial
  }

  /** A one-element set is the singleton of any of its elements. */
  lemma SingleCell(s: set<int>, c: int)
    requires |s| == 1 && c in s
    ensures s == {c}
  {
    assert |s - {c}| == 0;
  }

  /** `o_ith`: the board string with cell `i` overwritten by 'o'. */
  function PutO(board: string, i: int): (r: string)
    requires 0 <= i < |board|
    ensures |r| == |board| && r[i] == 'o'
    ensures forall j :: 0 <= j < |board| && j != i ==> r[j] == board[j]
  {
    board[i := 'o']
  }

  /** `o_ith` as the source runs it: copy the string into a mutable buffer,
      assign one slot, and join the buffer back into a string. */
  method PlaceO(board: string, i: int) returns (r: string)
    requires 0 <= i < |board|
    ensures |r| == |board| && r[i] == 'o'
    ensures forall j :: 0 <= j < |board| && j != i ==> r[j] == board[j]
    ensures r == PutO(board, i)
  {
    var a := new char[|board|](j requires 0 <= j < |board| => board[j]);
    a[i] := 'o';
    r := a[..];
  }

  /** Python's truth test on a cell-or-None: None and cell 0 are both false. */
  predicate Truthy(m: Option<int>) {
    m.Some? && m.value != 0
  }

  /** The corner opposite the first x corner, from index `i` on, whose opposite is blank. */
  function OppositeFrom(d: Board, i: nat): (r: Option<int>)
    requires i <= 9
    ensures r.Some? ==> r.value in d.blank && r.value in Corners
    ensures r.Some? ==> exists k :: i <= k < 9 && k in d.x * Corners && KittyCorners[k] == r.value
                          && forall k' :: i <= k' < k && k' in d.x * Corners ==> KittyCorners[k'] !in d.blank
    ensures r.None? ==> forall k :: i <= k < 9 && k in d.x * Corners ==> KittyCorners[k] !in d.blank
    decreases 9 - i
  {
    if i == 9 then None
    else if i in d.x * Corners && KittyCorners[i] in d.blank then Some(KittyCorners[i])
    else OppositeFrom(d, i + 1)
  }

  /** The corner facing an x corner across the board, when it is blank;
      x's corners are visited lowest index first. */
  function OppositeCorner(d: Board): (r: Option<int>)
    ensures r.Some? ==> r.value in d.blank && r.value in Corners
    ensures r.Some? ==> exists k :: k in d.x * Corners && KittyCorners[k] == r.value
    ensures r.None? <==> forall k :: k in d.x * Corners ==> KittyCorners[k] !in d.blank
  {
    OppositeFrom(d, 0)
  }

  /**
    The decision chain of `upboard`, from the trivial cases to the fallbacks:
    win, block, fork, block a fork, center, the corner opposite an x, an
    empty corner, an empty side. A win, block or fork at cell 0 and an empty
    corner 0 are skipped, because the source tests them for truth.
  */
  function Choose(d: Board): (r: Result<int, Error>)
    requires d.Valid()
    ensures r.Success? ==> 0 <= r.value < 9
    ensures r.Success? && Winning(d, 'o') ==> r.value in d.o
    ensures r.Success? && !Winning(d, 'o') ==> r.value in d.blank
    ensures r == Failure(BadRequest) <==> Winning(d, 'x')
    ensures r == Failure(EmptyPop) ==>
      && Trivial(d) == NotTrivial
      && !Truthy(CanWin(d, 'o')) && !Truthy(CanWin(d, 'x'))
      && !Truthy(Fork(d, 'o')) && !Truthy(Fork(d, 'x'))
      && Center !in d.blank && OppositeCorner(d).None?
      && (d.blank * Corners == {} || (0 in d.blank && d.blank * Sides == {}))
  {
    match Trivial(d)
    case Abort => Failure(BadRequest)
    case Play(c) => Success(c)
    case NotTrivial =>
      var oWins := CanWin(d, 'o');
      if Truthy(oWins) then
        CanWinCompletesLine(d, 'o');
        Success(oWins.value)
      else
        var xWins := CanWin(d, 'x');
        if Truthy(xWins) then
          CanWinCompletesLine(d, 'x');
          Success(xWins.value)
        else
          var oForks := Fork(d, 'o');
          if Truthy(oForks) then Success(oForks.value)
          else
            var xForks := Fork(d, 'x');
            if Truthy(xForks) then Success(xForks.value)
            else if Center in d.blank then Success(Center)
            else
              match OppositeCorner(d)
              case Some(c) => Success(c)
              case None =>
                var corners := d.blank * Corners;
                if corners == {} then Failure(EmptyPop)
                else
                  var emptyCorner := Lowest(corners);
                  if emptyCorner != 0 then Success(emptyCorner)
                  else
                    var sides := d.blank * Sides;
                    if sides == {} then Failure(EmptyPop)
                    else Success(Lowest(sides))
  }

  /** `out` is `board` with at most one blank turned into an 'o'. */
  predicate AtMostOneO(board: string, out: string) {
    && |out| == |board|
    && (forall i :: 0 <= i < |board| ==> out[i] == board[i] || (board[i] == ' ' && out[i] == 'o'))
    && (forall i, j :: 0 <= i < |board| && 0 <= j < |board| && out[i] != board[i] && out[j] != board[j] ==> i == j)
  }

  /** The whole engine: parse, choose a cell, write an 'o' there. An answer
      comes only for an accepted board and changes at most one blank into an
      'o'. */
  function Evaluate(board: string): (r: Result<string, Error>)
    ensures r.Success? ==> Parse(board).Some? && AtMostOneO(board, r.value)
  {
    match Parse(board)
    case None => Failure(BadRequest)
    case Some(d) =>
      match Choose(d)
      case Failure(e) => Failure(e)
      case Success(c) => Success(PutO(board, c))
  }

  /**
    `upboard` step by step: the parser, each detector and `o_ith` in the
    order the source calls them. Its steps must stay step-for-step the same
    as those of `Choose`, which its postcondition ties it to.
  */
  method Upboard(board: string) returns (r: Result<string, Error>)
    ensures r == Evaluate(board)
  {
    var parsed := ParseBoard(board);
    if parsed.None? {
      return Failure(BadRequest);
    }
    var d := parsed.value;
    var out: string;
    var trivial := Trivial(d);
    if trivial == Abort {
      return Failure(BadRequest);
    } else if trivial.Play? {
      out := PlaceO(board, trivial.cell);
      return Success(out);
    }
    var oWins := CanWin(d, 'o');
    if Truthy(oWins) {
      out := PlaceO(board, oWins.value);
      return Success(out);
    }
    var xWins := CanWin(d, 'x');
    if Truthy(xWins) {
      out := PlaceO(board, xWins.value);
      return Success(out);
    }
    var oForks := CanFork(d, 'o');
    if Truthy(oForks) {
      out := PlaceO(board, oForks.value);
      return Success(out);
    }
    var xForks := CanFork(d, 'x');
    if Truthy(xForks) {
      out := PlaceO(board, xForks.value);
      return Success(out);
    }
    if Center in d.blank {
      out := PlaceO(board, Center);
      return Success(out);
    }
    var opposite := OppositeCorner(d);
    if opposite.Some? {
      out := PlaceO(board, opposite.value);
      return Success(out);
    }
    var corners := d.blank * Corners;
    if corners == {} {
      return Failure(EmptyPop);
    }
    var emptyCorner := Lowest(corners);
    if emptyCorner != 0 {
      out := PlaceO(board, emptyCorner);
      return Success(out);
    }
    var sides := d.blank * Sides;
    if sides == {} {
      return Failure(EmptyPop);
    }
    out := PlaceO(board, Lowest(sides));
    return Success(out);
  }
}
