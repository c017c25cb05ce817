/**
  Fork detection (tic.py `can_fork`): a blank cell is a fork for a side when
  at least two winning lines through it hold no opponent mark and at least
  one mark of that side, so marking it opens two threats at once.
*/
module Forks {
  import opened Wrappers
  import opened Tables
  import opened Boards
  import opened Threats

  /** `line` passes through `cell`, is free of `theirs` and meets `mine`. */
  predicate ThreatLine(line: set<int>, cell: int, mine: set<int>, theirs: set<int>) {
    cell in line && line !! theirs && line * mine != {}
  }

  /** How many of the first `k` lines of `Wins` are threat lines through `cell`. */
  function ThreatCount(cell: int, mine: set<int>, theirs: set<int>, k: nat): nat
    requires k <= |Wins|
  {
    if k == 0 then 0
    else ThreatCount(cell, mine, theirs, k - 1) + (if ThreatLine(Wins[k - 1], cell, mine, theirs) then 1 else 0)
  }

  /** Cell `c` is a blank that lies on more than one threat line for `xo`. */
  predicate IsForkCell(d: Board, xo: char, c: int)
    requires IsSide(xo)
  {
    c in d.blank && ThreatCount(c, Marks(d, xo), Marks(d, Opponent(xo)), |Wins|) > 1
  }

  /** The first fork cell for `xo` at or above index `i`. */
  function ForkFrom(d: Board, xo: char, i: nat): (r: Option<int>)
    requires IsSide(xo) && i <= 9
    ensures r.Some? ==> i <= r.value < 9 && IsForkCell(d, xo, r.value)
                        && forall j :: i <= j < r.value ==> !IsForkCell(d, xo, j)
    ensures r.None? ==> forall j :: i <= j < 9 ==> !IsForkCell(d, xo, j)
    decreases 9 - i
  {
    if i == 9 then None
    else if IsForkCell(d, xo, i) then Some(i)
    else ForkFrom(d, xo, i + 1)
  }

  /**
    What `can_fork` returns: None for a non-side token, otherwise the first
    fork cell, scanning the blanks lowest index first (Python leaves the scan
    order of the blank set to the interpreter).
  */
  function Fork(d: Board, xo: char): (r: Option<int>)
    requires d.Valid()
    ensures r.Some? ==> IsSide(xo) && IsForkCell(d, xo, r.value)
    ensures r.None? && IsSide(xo) ==> forall c :: c in d.blank ==> !IsForkCell(d, xo, c)
  {
    if !IsSide(xo) then None else ForkFrom(d, xo, 0)
  }

  /**
    The detector as the source runs it: for each blank cell, count the
    threat lines through it, and stop at the first cell with more than one.
  */
  method CanFork(d: Board, xo: char) returns (r: Option<int>)
    requires d.Valid()
    ensures r == Fork(d, xo)
  {
    if !IsSide(xo) {
      return None;
    }
    var ox := Opponent(xo);
    for i := 0 to 9
      invariant forall j :: 0 <= j < i ==> !IsForkCell(d, xo, j)
    {
      if i in d.blank {
        var nthreats := 0;
        for k := 0 to |Wins|
          invariant nthreats == ThreatCount(i, Marks(d, xo), Marks(d, ox), k)
        {
          var win := Wins[k];
          if i in win && win !! Marks(d, ox) && win * Marks(d, xo) != {} {
            nthreats := nthreats + 1;
          }
        }
        if nthreats > 1 {
          return Some(i);
        }
      }
    }
    return None;
  }

  /** Two distinct threat lines through `c` among the first `k` lines. */
  ghost predicate TwoThreatLines(c: int, mine: set<int>, theirs: set<int>, k: nat)
    requires k <= |Wins|
  {
    exists j1, j2 :: 0 <= j1 < j2 < k
      && ThreatLine(Wins[j1], c, mine, theirs) && ThreatLine(Wins[j2], c, mine, theirs)
  }

  /** The count exceeds one exactly when two distinct lines qualify. */
  lemma {:induction false} ThreatCountAboveOne(c: int, mine: set<int>, theirs: set<int>, k: nat)
    requires k <= |Wins|
    ensures ThreatCount(c, mine, theirs, k) > 1 <==> TwoThreatLines(c, mine, theirs, k)
    ensures ThreatCount(c, mine, theirs, k) > 0 <==> exists j :: 0 <= j < k && ThreatLine(Wins[j], c, mine, theirs)
  {
    if k > 0 {
      ThreatCountAboveOne(c, mine, theirs, k - 1);
      if ThreatLine(Wins[k - 1], c, mine, theirs) && ThreatCount(c, mine, theirs, k - 1) > 0 {
        var j :| 0 <= j < k - 1 && ThreatLine(Wins[j], c, mine, theirs);
        assert ThreatLine(Wins[j], c, mine, theirs) && ThreatLine(Wins[k - 1], c, mine, theirs);
      }
      if TwoThreatLines(c, mine, theirs, k) {
        var j1, j2 :| 0 <= j1 < j2 < k
          && ThreatLine(Wins[j1], c, mine, theirs) && ThreatLine(Wins[j2], c, mine, theirs);
        if j2 < k - 1 {
          assert TwoThreatLines(c, mine, theirs, k - 1);
        }
      }
    }
  }

  /** Two different lines of `Wins`, in either order, are threat lines through `c`. */
  ghost predicate DistinctThreatLines(c: int, mine: set<int>, theirs: set<int>) {
    exists j1, j2 ::
      && 0 <= j1 < |Wins| && 0 <= j2 < |Wins| && j1 != j2
      && ThreatLine(Wins[j1], c, mine, theirs) && ThreatLine(Wins[j2], c, mine, theirs)
  }

  /** A fork cell is exactly a blank cell on two distinct lines that hold no
      opponent mark and at least one own mark. */
  lemma ForkCellMeansTwoLines(d: Board, xo: char, c: int)
    requires IsSide(xo)
    ensures IsForkCell(d, xo, c) <==>
      c in d.blank && DistinctThreatLines(c, Marks(d, xo), Marks(d, Opponent(xo)))
  {
    var mine, theirs := Marks(d, xo), Marks(d, Opponent(xo));
    ThreatCountAboveOne(c, mine, theirs, |Wins|);
    if DistinctThreatLines(c, mine, theirs) {
      var j1, j2 :| 0 <= j1 < |Wins| && 0 <= j2 < |Wins| && j1 != j2
        && ThreatLine(Wins[j1], c, mine, theirs) && ThreatLine(Wins[j2], c, mine, theirs);
      if j1 < j2 {
        assert TwoThreatLines(c, mine, theirs, |Wins|);
      } else {
        assert ThreatLine(Wins[j2], c, mine, theirs) && ThreatLine(Wins[j1], c, mine, theirs);
        assert TwoThreatLines(c, mine, theirs, |Wins|);
      }
    }
  }
}
