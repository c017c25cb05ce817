/**
  The static tables of the engine. Cells are numbered row by row:

    0 1 2
    3 4 5
    6 7 8
*/
module Tables {

  /** The nine cell indices of the board. */
  const AllCells: set<int> := set i | 0 <= i < 9

  /** The eight winning lines, in the order every scan visits them:
      three rows, three columns, two diagonals. */
  const Wins: seq<set<int>> :=
    [{0, 1, 2}, {3, 4, 5}, {6, 7, 8},
     {0, 3, 6}, {1, 4, 7}, {2, 5, 8},
     {0, 4, 8}, {2, 4, 6}]

  const Center: int := 4

  const Corners: set<int> := {0, 8, 2, 6}

  /** Each corner paired with the corner diagonally opposite it. */
  const KittyCorners: map<int, int> := map[0 := 8, 8 := 0, 2 := 6, 6 := 2]

  const Sides: set<int> := {1, 3, 5, 7}

  /** Every line holds three cells of the board, and the tables cover the board. */
  lemma TablesWellFormed()
    ensures |Wins| == 8
    ensures forall j :: 0 <= j < |Wins| ==> Wins[j] <= AllCells && |Wins[j]| == 3
    ensures Corners + Sides + {Center} == AllCells
    ensures Corners !! Sides && Center !in Corners + Sides
    ensures KittyCorners.Keys == Corners && KittyCorners.Values == Corners
    ensures forall c :: c in KittyCorners ==> KittyCorners[c] != c && KittyCorners[KittyCorners[c]] == c
  {
  }
}
