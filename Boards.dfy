/**
  Board parsing and validation (tic.py `parse_board`). A board arrives as a
  nine-character string, one character per cell in index order: ' ' for an
  empty cell, 'x' and 'o' for the two sides. Parsing groups the cell indices
  by character.
*/
module Boards {
  import opened Wrappers
  import opened Tables

  /** The parsed board: for each of 'x', ' ' and 'o', the cells holding it. */
  datatype Board = Board(x: set<int>, blank: set<int>, o: set<int>)
  {
    /** Every cell holds exactly one of the three characters. */
    predicate Valid() {
      x !! blank && x !! o && blank !! o && x + blank + o == AllCells
    }
  }

  /** The three characters a board may contain. */
  predicate IsMark(c: char) {
    c == ' ' || c == 'x' || c == 'o'
  }

  /** The indices of `board` that hold `c`. */
  function CellsOf(board: string, c: char): set<int> {
    set i | 0 <= i < |board| && board[i] == c
  }

  /** The number of occurrences of `c` in `s`. */
  function Count(s: string, c: char): nat {
    if s == [] then 0 else Count(s[..|s| - 1], c) + (if s[|s| - 1] == c then 1 else 0)
  }

  /**
    The board `board` stands for, or None when it is rejected: it must have
    nine characters, all of them marks, at least one blank, and as many x's
    as o's or one x more.
  */
  function Parse(board: string): (r: Option<Board>)
    ensures r.Some? ==> |board| == 9 && r.value.Valid()
    ensures r.Some? ==> forall i :: 0 <= i < |board| ==> IsMark(board[i])
  {
    if |board| != 9 then None
    else if exists i :: 0 <= i < 9 && !IsMark(board[i]) then None
    else
      var d := Board(CellsOf(board, 'x'), CellsOf(board, ' '), CellsOf(board, 'o'));
      if |d.blank| == 0 then None
      else if |d.x| - |d.o| == 1 || |d.x| - |d.o| == 0 then Some(d)
      else None
  }

  /** The character a parsed board holds at cell `i`. */
  function CellChar(d: Board, i: int): char {
    if i in d.x then 'x' else if i in d.o then 'o' else ' '
  }

  /** The string a parsed board is written as. */
  function Render(d: Board): (s: string)
    ensures |s| == 9
  {
    seq(9, i => CellChar(d, i))
  }

  /**
    The parser itself: one pass over the nine characters, adding each index
    to the set its character names and stopping at the first character that
    is not a mark.
  */
  method ParseBoard(board: string) returns (r: Option<Board>)
    ensures r == Parse(board)
  {
    if |board| != 9 {
      return None;
    }
    var x: set<int>, blank: set<int>, o: set<int> := {}, {}, {};
    for i := 0 to 9
      invariant forall j :: 0 <= j < i ==> IsMark(board[j])
      invariant forall j :: j in x <==> 0 <= j < i && board[j] == 'x'
      invariant forall j :: j in blank <==> 0 <= j < i && board[j] == ' '
      invariant forall j :: j in o <==> 0 <= j < i && board[j] == 'o'
    {
      if board[i] == ' ' {
        blank := blank + {i};
      } else if board[i] == 'o' {
        o := o + {i};
      } else if board[i] == 'x' {
        x := x + {i};
      } else {
        assert !IsMark(board[i]);
        return None;
      }
    }
    assert x == CellsOf(board, 'x');
    assert blank == CellsOf(board, ' ');
    assert o == CellsOf(board, 'o');
    if |blank| == 0 {
      return None;
    }
    var dlen := |x| - |o|;
    if dlen == 1 || dlen == 0 {
      return Some(Board(x, blank, o));
    }
    return None;
  }

  /** Counting the indices of a character agrees with counting the character. */
  lemma {:induction false} CardCellsOf(s: string, c: char)
    ensures |CellsOf(s, c)| == Count(s, c)
  {
    if s != [] {
      var t := s[..|s| - 1];
      CardCellsOf(t, c);
      if s[|s| - 1] == c {
        assert CellsOf(s, c) == CellsOf(t, c) + {|s| - 1};
      } else {
        assert CellsOf(s, c) == CellsOf(t, c);
      }
    }
  }

  /** Writing one character changes the counts by that one character only. */
  lemma {:induction false} CountUpdate(s: string, i: int, v: char, c: char)
    requires 0 <= i < |s|
    ensures Count(s[i := v], c) == Count(s, c) - (if s[i] == c then 1 else 0) + (if v == c then 1 else 0)
  {
    var n := |s| - 1;
    if i == n {
      assert s[i := v][..n] == s[..n];
    } else {
      assert s[i := v][..n] == s[..n][i := v];
      CountUpdate(s[..n], i, v, c);
    }
  }

  /** A board is accepted exactly when it has nine marks, a blank, and an x-count
      equal to the o-count or one more. */
  lemma ParseAccepts(board: string)
    ensures Parse(board).Some? <==>
      && |board| == 9
      && (forall i :: 0 <= i < |board| ==> IsMark(board[i]))
      && Count(board, ' ') > 0
      && (Count(board, 'x') == Count(board, 'o') || Count(board, 'x') == Count(board, 'o') + 1)
  {
    CardCellsOf(board, 'x');
    CardCellsOf(board, ' ');
    CardCellsOf(board, 'o');
  }

  /** Each index of an accepted board sits in the set its character names:
      rendering the parsed board gives back the input. */
  lemma ParseRender(board: string)
    requires Parse(board).Some?
    ensures Render(Parse(board).value) == board
  {
    var d := Parse(board).value;
    forall i | 0 <= i < 9
      ensures Render(d)[i] == board[i]
    {
      assert i in CellsOf(board, board[i]);
    }
  }

  /** Conversely every legal board is the parse of its rendering. */
  lemma RenderParse(d: Board)
    requires d.Valid() && d.blank != {}
    requires |d.x| == |d.o| || |d.x| == |d.o| + 1
    ensures Parse(Render(d)) == Some(d)
  {
    var s := Render(d);
    assert CellsOf(s, 'x') == d.x;
    assert CellsOf(s, 'o') == d.o;
    assert CellsOf(s, ' ') == d.blank;
  }

  /** The lowest element of `s` at or above `i`. */
  function LowestFrom(s: set<int>, i: nat): (r: int)
    requires i <= 9
    requires exists j :: j in s && i <= j < 9
    ensures r in s && i <= r < 9
    ensures forall j :: j in s && i <= j ==> r <= j
    decreases 9 - i
  {
    if i in s then i else LowestFrom(s, i + 1)
  }

  /**
    The element `pop()` and set iteration yield first. Python leaves that
    order to the interpreter; the model fixes it to the lowest index.
  */
  function Lowest(s: set<int>): (r: int)
    requires s != {} && s <= AllCells
    ensures r in s && forall j :: j in s ==> r <= j
  {
    NonEmptyHasCell(s);
    LowestFrom(s, 0)
  }

  /** A non-empty set of cells has a cell in range. */
  lemma NonEmptyHasCell(s: set<int>)
    requires s != {} && s <= AllCells
    ensures exists j :: j in s && 0 <= j < 9
  {
    var w :| w in s;
  }
}
