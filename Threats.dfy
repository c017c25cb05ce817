/**
  Win and threat detection (tic.py `winning` and `can_win`). Both take the
  side to look at as a character and answer nothing for any character other
  than 'x' or 'o'.
*/
module Threats {
  import opened Wrappers
  import opened Tables
  import opened Boards

  /** The two side tokens the detectors accept. */
  predicate IsSide(xo: char) {
    xo == 'x' || xo == 'o'
  }

  /** The cells marked by side `xo`. */
  function Marks(d: Board, xo: char): set<int>
    requires IsSide(xo)
  {
    if xo == 'x' then d.x else d.o
  }

  /** The side playing against `xo`. */
  function Opponent(xo: char): (r: char)
    requires IsSide(xo)
    ensures IsSide(r) && r != xo
  {
    if xo == 'x' then 'o' else 'x'
  }

  /** Some winning line lies entirely inside `cells`. */
  ghost predicate HasLine(cells: set<int>) {
    exists j :: 0 <= j < |Wins| && Wins[j] <= cells
  }

  /** The scan of `winning`: does a line from the `k`-th on lie inside `cells`? */
  function LineFrom(cells: set<int>, k: nat): (r: bool)
    requires k <= |Wins|
    ensures r <==> exists j :: k <= j < |Wins| && Wins[j] <= cells
    decreases |Wins| - k
  {
    if k == |Wins| then false
    else if Wins[k] <= cells then true
    else LineFrom(cells, k + 1)
  }

  /** `winning`: side `xo` holds a complete line; never for a non-side token. */
  function Winning(d: Board, xo: char): (r: bool)
    ensures r <==> IsSide(xo) && HasLine(Marks(d, xo))
  {
    if !IsSide(xo) then false else LineFrom(Marks(d, xo), 0)
  }

  /** Line `line` lacks exactly one cell of `mine`, and that cell is blank. */
  predicate Finishable(line: set<int>, mine: set<int>, blank: set<int>) {
    |line - mine| == 1 && line - mine <= blank
  }

  /** Marking `c` completes `line` for the side holding `mine`. */
  predicate Completes(line: set<int>, mine: set<int>, blank: set<int>, c: int) {
    line - mine == {c} && c in blank
  }

  /** The single cell `line` lacks, when it lacks exactly one. */
  lemma SingleGap(line: set<int>, mine: set<int>, c: int)
    requires |line - mine| == 1 && c in line - mine
    ensures line - mine == {c}
  {
    assert |line - mine - {c}| == 0;
  }

  /** The scan of `can_win` over `lines` (always `Wins`) from the `k`-th line
      on: the gap of the first finishable line. */
  function WinFrom(lines: seq<set<int>>, mine: set<int>, blank: set<int>, k: nat): (r: Option<int>)
    requires k <= |lines|
    requires forall j :: 0 <= j < |lines| ==> lines[j] <= AllCells
    ensures r.Some? ==> exists j :: k <= j < |lines| && Completes(lines[j], mine, blank, r.value)
                                      && forall i :: k <= i < j ==> !Finishable(lines[i], mine, blank)
    ensures r.None? ==> forall j :: k <= j < |lines| ==> !Finishable(lines[j], mine, blank)
    decreases |lines| - k
  {
    if k == |lines| then None
    else
      var gap := lines[k] - mine;
      if |gap| == 1 then
        var winner := Lowest(gap);
        SingleGap(lines[k], mine, winner);
        if winner in blank then Some(winner) else WinFrom(lines, mine, blank, k + 1)
      else WinFrom(lines, mine, blank, k + 1)
  }

  /** `can_win`: the cell that completes the first line, in table order, that
      side `xo` can finish in one move; None for a non-side token. */
  function CanWin(d: Board, xo: char): (r: Option<int>)
    ensures r.Some? ==> IsSide(xo) && exists j :: 0 <= j < |Wins| && Completes(Wins[j], Marks(d, xo), d.blank, r.value)
    ensures r.None? && IsSide(xo) ==> forall j :: 0 <= j < |Wins| ==> !Finishable(Wins[j], Marks(d, xo), d.blank)
  {
    if !IsSide(xo) then None
    else
      TablesWellFormed();
      WinFrom(Wins, Marks(d, xo), d.blank, 0)
  }

  /** A cell `can_win` returns is blank and completes a line for that side, and
      no earlier line could be finished. */
  lemma CanWinCompletesLine(d: Board, xo: char)
    requires CanWin(d, xo).Some?
    ensures IsSide(xo)
    ensures CanWin(d, xo).value in d.blank
    ensures HasLine(Marks(d, xo) + {CanWin(d, xo).value})
    ensures exists j :: 0 <= j < |Wins| && Wins[j] - Marks(d, xo) == {CanWin(d, xo).value}
                          && forall i :: 0 <= i < j ==> !Finishable(Wins[i], Marks(d, xo), d.blank)
  {
    var c := CanWin(d, xo).value;
    var j :| 0 <= j < |Wins| && Completes(Wins[j], Marks(d, xo), d.blank, c);
    assert Wins[j] <= Marks(d, xo) + {c};
  }

  /** When `can_win` finds nothing, no blank cell completes a line the side did
      not already hold. */
  lemma NoWinMeansNoCompletingMove(d: Board, xo: char, c: int, j: int)
    requires d.Valid() && IsSide(xo) && CanWin(d, xo).None?
    requires c in d.blank && 0 <= j < |Wins|
    requires Wins[j] <= Marks(d, xo) + {c}
    ensures Wins[j] <= Marks(d, xo)
  {
    var mine := Marks(d, xo);
    if !(Wins[j] <= mine) {
      assert c in Wins[j] - mine;
      assert Wins[j] - mine == {c};
      assert Finishable(Wins[j], mine, d.blank);
      assert false;
    }
  }

  /** A three-cell line lacks at least two cells of a side holding one mark or none. */
  lemma GapAtLeastTwo(line: set<int>, mine: set<int>)
    requires |line| == 3 && |mine| <= 1
    ensures |line - mine| >= 2
  {
    var common := line * mine;
    assert common <= mine;
    assert line == (line - mine) + common;
    assert (line - mine) !! common;
  }

  /** `can_win` finds nothing exactly when no line can be finished in one move. */
  lemma CanWinNoneIff(d: Board, xo: char)
    requires IsSide(xo)
    ensures CanWin(d, xo).None? <==>
      forall j :: 0 <= j < |Wins| ==> !Finishable(Wins[j], Marks(d, xo), d.blank)
  {
    if CanWin(d, xo).Some? {
      var c := CanWin(d, xo).value;
      var j :| 0 <= j < |Wins| && Completes(Wins[j], Marks(d, xo), d.blank, c);
      assert Finishable(Wins[j], Marks(d, xo), d.blank);
    }
  }

  /** A side needs two marks before it can win in one move. */
  lemma OneMarkCannotWin(d: Board, xo: char)
    requires IsSide(xo) && |Marks(d, xo)| <= 1
    ensures CanWin(d, xo).None?
  {
    var mine := Marks(d, xo);
    TablesWellFormed();
    forall j | 0 <= j < |Wins|
      ensures !Finishable(Wins[j], mine, d.blank)
    {
      GapAtLeastTwo(Wins[j], mine);
    }
    CanWinNoneIff(d, xo);
  }
}
