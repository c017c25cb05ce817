# tic-tac-toe move engine, modelled in Dafny

The modelled program is a small web service that receives one tic-tac-toe
board and answers it with the next move for the side "o". A board is a
nine-character string, cells numbered row by row (0 1 2 / 3 4 5 / 6 7 8),
each character `' '` (blank), `'x'` or `'o'`. The engine

1. parses the string into three disjoint cell sets and refuses malformed or
   impossible boards (`parse_board`);
2. answers the trivial cases: x already has a line (refuse), o already has a
   line (answer the board unchanged), one blank left, or an empty board
   (`trivial_case`);
3. otherwise walks a fixed priority chain: win, block x's win, fork, block
   x's fork, center, the corner opposite an x corner, an empty corner, an
   empty side (`upboard`, using `can_win` and `can_fork`);
4. writes an `'o'` into the chosen cell (`o_ith`).

Modules, one per part of `tic.py`:

- `Tables` (Tables.dfy): `WINS`, `CENTER`, `CORNERS`, `KITTY_CORNERS`, `SIDES`.
- `Boards` (Boards.dfy): the parsed board, `Parse` (the specification) and
  `ParseBoard` (the loop of `parse_board`), character counts, the rendering
  of a parsed board back to a string, and `Lowest`, the order rule below.
- `Threats` (Threats.dfy): `winning` and `can_win` as recursive scans over
  the line table.
- `Forks` (Forks.dfy): `Fork` (the specification) and `CanFork` (the nested
  counting loops of `can_fork`).
- `Strategy` (Strategy.dfy): `trivial_case`, `o_ith`, the decision chain
  `Choose`, the whole engine `Evaluate`, and `Upboard`, the chain as a
  method that calls `ParseBoard`, `CanFork` and `PlaceO` and is proved equal
  to `Evaluate`.
- `EngineProperties` (Properties.dfy): what the engine promises on board
  strings, and concrete boards.
- `Findings` (Findings.dfy): two defects of the chain and the corrected
  chain.

Outcomes: an answer is `Success(board)`; `abort(400)` is
`Failure(BadRequest)`; the `KeyError` that `set.pop()` raises on an empty
set (an uncaught exception, so a server error) is `Failure(EmptyPop)`.

Choice among several candidates: `can_fork` iterates the blank set, the
opposite-corner step iterates `dboard['x'] & CORNERS` (tic.py:204), and
`trivial_case` and the corner and side fallbacks `pop()` from sets, so the
source leaves the choice to the interpreter's set order. The model fixes it
to the lowest index (`Boards.Lowest`, and scans from cell 0 upwards such as `Forks.ForkFrom` and `Strategy.OppositeFrom`). The
"first line in table order" rule of `can_win` is the source's own and is
kept.

Kept as written: Python's truth test on a cell index. `if o_wins:`,
`if x_wins:`, `if o_forks:` and `if x_forks:` read cell 0 as "nothing
found" (`Strategy.Truthy`), and so does `if empty_corner:` (the test
`emptyCorner != 0` in `Strategy.Choose` and `Strategy.Upboard`), so the
chain falls through.
`trivial_case`'s result is tested with `is not None`, so cell 0 counts
there.

One might expect `"xx       "` to be answered by blocking at cell 2, but
tic.py:59-65 refuses it because it has two more x's than o's
(`EngineProperties.TwoAheadIsRefused`); blocking is shown instead on the
legal board `"xx  o    "` (`EngineProperties.TopRowIsBlocked`).

## Model

| member | source | states |
|---|---|---|
| `Tables.TablesWellFormed` | tic.py:18-28 | eight lines of three cells each; corners, sides and center partition the board; opposite corners pair up |
| `Boards.Parse` | tic.py:33-65 | an accepted board's three sets are disjoint and cover cells 0..8, and every character is a mark |
| `Boards.ParseBoard` | tic.py:33-65 | the character-by-character loop builds exactly the board `Parse` specifies, including every rejection |
| `Boards.ParseAccepts` | tic.py:41-65 | a board is accepted iff it has 9 characters, all marks, at least one blank, and #x - #o is 0 or 1 |
| `Boards.ParseRender` | tic.py:45-53 | each index sits in the set its character names: the parsed board renders back to the input |
| `Boards.RenderParse` | tic.py:38-65 | every legal board is the parse of its rendering (the other half of the round trip) |
| `Boards.CardCellsOf` | tic.py:56-60 | the set sizes the parser compares are the character counts of the input |
| `Boards.CountUpdate` | tic.py:149-153 | overwriting one character changes the counts by that character only |
| `Boards.Lowest` | tic.py:134-138 | the element a `pop()` yields is in the set and no larger than any other element (the fixed order rule) |
| `Threats.Opponent` | tic.py:96-100 | the opponent of a side is the other side |
| `Threats.LineFrom` | tic.py:72-75 | the scan finds a line iff some line from that position on lies inside the cells |
| `Threats.Winning` | tic.py:68-75 | `winning` holds iff the token is 'x' or 'o' and some line of `WINS` is inside that side's cells |
| `Threats.WinFrom` | tic.py:82-88 | a found cell completes a line missing only that blank cell, and no earlier line could be finished; nothing found means no line can |
| `Threats.CanWin` | tic.py:78-88 | `can_win` returns a cell only for a real side, and that cell is the blank gap of some line; for a side, nothing returned means no line can be finished in one move |
| `Threats.CanWinCompletesLine` | tic.py:78-88 | a cell `can_win` returns is blank, is the only cell a line lacks, adding it gives the side a line, and it is the first such line in table order |
| `Threats.CanWinNoneIff` | tic.py:82-88 | `can_win` returns nothing iff no line lacks exactly one cell that is blank |
| `Threats.NoWinMeansNoCompletingMove` | tic.py:78-88 | when `can_win` finds nothing, no blank cell completes a line the side did not already hold |
| `Threats.OneMarkCannotWin` | tic.py:82-88 | a side with at most one mark has no one-move win |
| `Forks.ForkFrom` | tic.py:103-120 | the scan returns the lowest fork cell from its start on, or nothing when there is none |
| `Forks.Fork` | tic.py:91-120 | a returned cell is a blank fork cell of a real side; for a side, nothing returned means no blank cell is a fork cell |
| `Forks.CanFork` | tic.py:91-120 | the nested loops with the `nthreats` counter return exactly what `Fork` specifies |
| `Forks.ThreatCountAboveOne` | tic.py:113-117 | the threat counter exceeds one iff two distinct qualifying lines exist (and is positive iff one exists) |
| `Forks.ForkCellMeansTwoLines` | tic.py:103-118 | a fork cell is exactly a blank on two distinct lines that contain it, hold no opponent mark, and meet the side's marks |
| `Strategy.Trivial` | tic.py:123-145 | refuse iff x has a line; with an o line answer an o cell; else one blank gives that blank, nine blanks give the center; otherwise not trivial |
| `Strategy.PutO` | tic.py:149-153 | `o_ith` keeps the length, puts 'o' at the index and leaves every other character unchanged |
| `Strategy.PlaceO` | tic.py:149-153 | the result keeps the length, has 'o' at the index and every other character unchanged |
| `Strategy.OppositeFrom` | tic.py:203-206 | a returned cell is blank and faces the first x corner whose opposite is blank; nothing returned means no x corner faces a blank |
| `Strategy.OppositeCorner` | tic.py:203-206 | a returned cell is a blank corner facing an x corner; nothing is returned iff no x corner faces a blank corner |
| `Strategy.Choose` | tic.py:170-219 | a chosen cell is on the board and blank (an o cell when o already has a line); a 400 refusal happens iff x has a line; a failing `pop()` happens only when nothing earlier applies, the center is taken, no x corner faces a blank corner, and either no corner is blank or corner 0 is blank and no side is (the converse is `EngineProperties.EmptyPopWhenNoCorner`, so together: exactly when) |
| `Strategy.Evaluate` | tic.py:157-216 | an answer comes only for an accepted board and turns at most one blank into an 'o', leaving every other character unchanged |
| `Strategy.Upboard` | tic.py:157-219 | the step-by-step engine, calling the parser, detectors and `o_ith` in source order, answers exactly `Evaluate` |
| `EngineProperties.ParsedCells` | tic.py:45-51 | on an accepted board a cell is blank, o or x iff its character is ' ', 'o' or 'x' |
| `EngineProperties.PlacedOCells` | tic.py:149-153 | after writing 'o' at a cell, o holds its old cells and that cell |
| `EngineProperties.EvaluateRejects` | tic.py:125-127 | the engine answers 400 iff the board is malformed or x already holds a line |
| `EngineProperties.EvaluateMovesOnce` | tic.py:170-216 | an answer rewrites one blank to 'o': one more 'o', one blank fewer, same x's; unchanged when o already won |
| `EngineProperties.OWonAnswersSameBoard` | tic.py:133-134 | when o already has a line and x has not, the answer is the input board |
| `EngineProperties.LastBlankIsFilled` | tic.py:137-138 | with one blank and no line for either side, that blank is filled and none remain |
| `EngineProperties.EmptyBoardTakesCenter` | tic.py:141-142 | the empty board is answered with 'o' at cell 4 |
| `EngineProperties.WinIsTaken` | tic.py:175-179 | on a contested board (no line for either side, 2-8 blanks), a win for o at a nonzero cell is played and the answer holds a whole o line |
| `EngineProperties.WinIsBlocked` | tic.py:181-185 | on a contested board (no line for either side, 2-8 blanks), without an o win, x's nonzero winning cell is taken; it was blank and would have completed an x line |
| `EngineProperties.ForkIsPlayed` | tic.py:187-191 | on a contested board (no line for either side, 2-8 blanks), without wins or blocks, o's nonzero fork cell is played; it lies on two x-free lines holding an o |
| `EngineProperties.ForkIsBlocked` | tic.py:193-197 | on a contested board (no line for either side, 2-8 blanks), without wins, blocks or an o fork, x's nonzero fork cell is taken; it lies on two o-free lines holding an x |
| `EngineProperties.CenterIsTaken` | tic.py:199-201 | on a contested board (no line for either side, 2-8 blanks), when no win, block or fork applies, a blank center is answered with `board[4 := 'o']` |
| `EngineProperties.EvaluatePlays` | tic.py:172-216 | when the chain picks a cell, the answer is the board with 'o' at that cell, which was ' ' when it was a blank cell |
| `EngineProperties.OppositeCornerIsTaken` | tic.py:203-206 | on a contested board (no line for either side, 2-8 blanks), with no win, block or fork and the center taken, when some x corner faces a blank corner, the chain answers a blank corner facing an x corner |
| `EngineProperties.EmptyCornerIsTaken` | tic.py:208-211 | on a contested board (no line for either side, 2-8 blanks), with no win, block or fork, the center taken and no x corner facing a blank corner, when corner 0 is not blank and some corner is, the lowest blank corner is answered |
| `EngineProperties.SideIsTaken` | tic.py:208-216 | on a contested board (no line for either side, 2-8 blanks), with no win, block or fork, the center taken and no x corner facing a blank corner, when corner 0 is blank (lowest, so skipped by the truth test) and some side is blank, the lowest blank side is answered |
| `EngineProperties.EmptyPopWhenNoCorner` | tic.py:208-216 | on a contested board (no line for either side, 2-8 blanks), with no win, block or fork, the center taken and no x corner facing a blank corner, the chain fails on an empty `pop()` whenever no corner is blank, or corner 0 is blank and no side is (with `Strategy.Choose`'s postcondition, exactly when) |
| `EngineProperties.TopRowIsBlocked` | tic.py:181-185 | `"xx  o    "` is answered `"xxo o    "` |
| `EngineProperties.TwoAheadIsRefused` | tic.py:59-65 | `"xx       "` (two x's, no o) is refused |
| `EngineProperties.XLineIsRefused` | tic.py:125-127 | `"xxx oo   "` (x holds the top row) is refused |
| `Findings.ZeroWinSkipped` | tic.py:176-185 | as written: on `" ooxx x  "` o can win at cell 0, yet the answer blocks at 5 and gives o no line |
| `Findings.EmptyCornerPopFails` | tic.py:208-211 | as written: the legal board `"x ooxxx o"` ends in the failing empty-corner `pop()` |
| `Findings.EvaluateIntended` | tic.py:157-216 | the corrected engine fails only with a 400, exactly when the board is malformed or x has a line, and an answer turns at most one blank into an 'o' |
| `Findings.ChooseIntended` | tic.py:170-219 | corrected chain: fails iff x has a line, otherwise always picks a blank (an o cell when o already won) |
| `Findings.IntendedAlwaysAnswers` | tic.py:208-216 | corrected engine answers every accepted board x has not won, writing one 'o' over a blank, or returning the board unchanged when o already holds a line |
| `Findings.IntendedNeverMissesWin` | tic.py:175-179 | corrected engine: on a contested board (no line for either side, 2-8 blanks), whenever o can complete a line, the answer holds a whole o line |
| `Findings.ZeroWinTaken` | tic.py:176-179 | corrected engine answers `" ooxx x  "` with the win `"oooxx x  "` |
| `Findings.EmptyCornerAnswered` | tic.py:208-216 | corrected engine answers `"x ooxxx o"` on side 1: `"xoooxxx o"` |

## Findings

| source | as written | input that shows it | evidently intended | confidence | as-written member | corrected member |
|---|---|---|---|---|---|---|
| tic.py:178 | `if o_wins:` (also 184, 190, 196, 210) treats the cell index 0 as "nothing found" | `" ooxx x  "`: o wins at cell 0, the engine blocks at 5 instead | test `is not None`, so a move at cell 0 counts | high (not executed) | `Findings.ZeroWinSkipped` | `Findings.ChooseIntended` (proved by `Findings.IntendedNeverMissesWin`, `Findings.ZeroWinTaken`) |
| tic.py:209 | `(dboard[' '] & CORNERS).pop()` on a board with no blank corner raises `KeyError` | `"x ooxxx o"`: legal, x has no line, only cells 1 and 7 blank | fall through to an empty side | high (not executed) | `Findings.EmptyCornerPopFails` | `Findings.ChooseIntended` (proved by `Findings.IntendedAlwaysAnswers`, `Findings.EmptyCornerAnswered`) |

The rest of the model (`Strategy.Evaluate` and the lemmas about it) keeps
the chain as written; the corrected chain sits beside it.

## Left out

- The web layer: the Flask app, the `/tic` route, reading the `board`
  query parameter, the `if not board` test for a missing parameter, and
  `app.run` (tic.py:6-8, 156-168, 221-222). The model's input is the board
  string; a missing parameter is not modelled (an empty string is refused by
  `Parse` anyway).
- HTTP responses: `abort(400)` is `Failure(BadRequest)`, an escaping
  `KeyError` is `Failure(EmptyPop)`; status codes and bodies are not modelled.
- Set iteration and `pop()` order: interpreter detail; replaced by the
  lowest-index rule described above. With another order the empty-corner
  pick at tic.py:209 may differ, so whether a blank corner 0 is reached
  (and then skipped as falsy) depends on that rule.
- tic.py:215 and 219: the side picked at tic.py:214 is one of 1, 3, 5, 7 and
  never 0, so `if empty_side:` always holds and the final `abort(400)` is
  unreachable; the model plays the side without the test.
- `trivial_case` removes the cell it returns from `dboard` by `pop()`;
  `upboard` returns right after, so that mutation is not modelled.
- `winning` returns `WON` (1) or `None`; the model returns true or false.
- The detectors and the chain take the parsed board; `Fork`, `Trivial` and
  `Choose` require it to be valid, which every board from `Parse` is.
- `o_ith` is modelled for indices inside the string; Python would also
  accept negative indices, which the engine never passes.
