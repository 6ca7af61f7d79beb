# A verified model of a 5x5 Go move engine

This project models the move engine of `my_player3.py`, a player for Go on
a 5x5 board. Given the player's colour (1 or 2), the previous board and the
current board, the engine does the following:

- enumerates the empty cells;
- drops suicides and moves that would recreate the previous board (the
  simple ko rule);
- narrows the rest to "good" moves: moves that capture if any do, otherwise
  moves that leave the new stone at least two liberties;
- picks a move, either by a fixed opening rule or by a depth-2 alpha-beta
  minimax over a static evaluator.

The evaluator scores stone counts, a komi of 2.5 for colour 2, the
opponent's liberties and the size of the largest groups.

Every engine function that loops is a method with those loops, proved
against a ghost specification function or against its own postcondition.
The modules are:

| File | Module | Contents |
|---|---|---|
| `board.dfy` | `Board` | Cell grid, neighbours, the row-major scan |
| `groups.dfy` | `Groups` | Flood fill, liberties, all groups, connectedness |
| `capture.dfy` | `Capture` | Capture resolution and the next board |
| `legality.dfy` | `Legality` | Suicide filter, repetition filter, good moves |
| `evaluation.dfy` | `Scoring` | The static evaluator |
| `search.dfy` | `Search` | Minimax with alpha-beta, and the move choice |
| `opening.dfy` | `Opening` | The first move of colour 1, which is the centre, and the reply of colour 2 to it, which reaches the failing branch of the move choice |
| `seqs.dfy` | `Seqs` | Generic facts about Python lists modelled as sequences |

The properties proved about those specification functions are listed in the
table below. The main ones are:

- flood fill computes the least same-colour-closed set containing the start
  cell;
- capture removes exactly the opponent groups left without a liberty, and
  nothing else changes;
- legal and good moves keep row-major order;
- the suicide filter's skip quirk holds;
- the evaluator matches its formula, with the komi assigned by colour number;
- alpha-beta is fail-soft against unpruned minimax, and exact with the full
  (-inf, +inf) window used at the root.

Boards are values. Python's `copy.deepcopy` followed by a cell update is
`Place`, and emptying the captured cells is `Clear`. Scores are exact
`real`s: every score the engine computes is a multiple of 0.5. The window
bounds `float('-inf')` and `float('inf')` are the `NegInf` and `PosInf`
cases of `Bound`. The minimax move result distinguishes three cases:

- `None` at a leaf is `NoMove`;
- `['PASS']` is `Pass`;
- a cell is `Play`.

## Model

| member | source | states |
|---|---|---|
| Board.Neighbors | my_player3.py:12-22 | a cell is listed exactly when it is orthogonally adjacent; no cell twice; between 2 and 4 entries |
| Board.NeighborsSymmetric | my_player3.py:12-22 | q is a neighbour of p exactly when p is a neighbour of q |
| Board.Place | my_player3.py:115-116 | the copied board holds v at the move cell and is unchanged everywhere else |
| Board.Clear | my_player3.py:119-121 | every captured cell becomes empty and every other cell is unchanged |
| Board.CollectCells | my_player3.py:6-9 | the row/column double loop collects the cells holding v, in row-major order (the scan of all 25 cells) |
| Board.FindEmptyPositions | my_player3.py:4-10 | returns the row-major scan of the empty cells |
| Board.ScanSpec | my_player3.py:4-10 | after n cells the scan holds exactly the cells of index below n that hold v, in strictly increasing row-major order |
| Board.ScanAll | my_player3.py:4-10 | the full scan lists every cell holding v, and only those, once each, in row-major order |
| Board.ScanFull | my_player3.py:4-10 | a scan of n cells has at most n entries, and exactly n only when every one of those cells holds v |
| Groups.FindSameColorNeighbor | my_player3.py:24-31 | exactly the adjacent cells holding the colour, in find_neighbor's order, without duplicates |
| Groups.PushUnvisited | my_player3.py:44-46 | pushes each same-colour neighbour that is in neither the group nor the stack, once; the stack stays duplicate-free and disjoint from the group |
| Groups.FindConnectGroup | my_player3.py:34-48 | the result has no duplicates, starts with the start cell, and its cells are exactly the flood-fill group of the start cell |
| Groups.GroupProps | my_player3.py:34-48 | the group contains the start cell, is closed under same-colour adjacency, and every other member holds the colour |
| Groups.GroupLeast | my_player3.py:34-48 | the group is contained in every same-colour-closed set that contains the start cell |
| Groups.GroupOfMember | my_player3.py:34-48 | flood fill started from any member of a stone's group finds the same group |
| Groups.GroupSameMask | my_player3.py:34-48 | a group depends only on which cells hold its colour |
| Groups.AddEmptyNeighbors | my_player3.py:57-61 | appends the empty neighbours of one member not yet listed; the list stays duplicate-free |
| Groups.CheckLiberty | my_player3.py:50-62 | returns, without duplicates, exactly the empty neighbours of the group of the cell once the colour is placed there |
| Groups.LibertiesAtMeaning | my_player3.py:50-62 | a cell is a liberty exactly when it is empty after the placement and adjacent to a member of the placed cell's group |
| Groups.LibertiesMeaning | my_player3.py:55-61 | a cell is a liberty of a set of stones exactly when it is empty and adjacent to one of them |
| Groups.ListsOf | my_player3.py:86 | one non-empty, duplicate-free list per group of the set; their element sets are exactly the set; no group is listed twice |
| Groups.FindAllConnectGroup | my_player3.py:74-87 | one non-empty, duplicate-free list per distinct group of the colour; their element sets are exactly the groups; no group twice |
| Groups.GroupsPartition | my_player3.py:74-87 | the groups are non-empty sets of stones of the colour, every stone's group is among them, and a group is the group of each of its members |
| Groups.StonesScanned | my_player3.py:77-80 | the cells collected by the double loop are exactly the stones of the colour |
| Groups.AppendNew | my_player3.py:158-160 | appends the members not yet listed; the result is duplicate-free and holds the union |
| Groups.LibertiesAtMember | my_player3.py:156-157 | check_liberty started on any stone of a group yields that group's liberties |
| Groups.LibertiesUnion | my_player3.py:155-160 | the liberties of a union of stones are the union of their liberties |
| Groups.FindAllLiberty | my_player3.py:152-161 | returns, without duplicates, exactly the liberties of all stones of the colour |
| Groups.StoneLiberties | my_player3.py:152-161 | a cell is among them exactly when it is empty and adjacent to a stone of the colour |
| Groups.CheckConnectedness | my_player3.py:163-170 | returns the size of the largest group of the colour (0 with no stone) |
| Groups.MaxGroupSizeMeaning | my_player3.py:163-170 | that size bounds every stone's group, is attained by some stone's group when positive, and is 0 exactly when the colour has no stone |
| Capture.GroupHasLiberty | my_player3.py:100-106 | true exactly when some stone of the group, probed with check_liberty on the board after the move, has a liberty |
| Capture.CaptureAfterMove | my_player3.py:90-111 | the captured cells are exactly the stones of the opponent groups (taken from the board before the move) of which no stone has a liberty after the move |
| Capture.CaptureOnlyOpponent | my_player3.py:90-111 | only opponent stones are captured, and the move cell, when empty, never is |
| Capture.CaptureMeaning | my_player3.py:90-111 | on an empty move cell, captured = the union of the pre-move opponent groups with no empty neighbour once the stone is placed |
| Capture.CheckNextBoard | my_player3.py:114-122 | returns the board with the stone placed and every captured cell emptied |
| Capture.NextBoardCells | my_player3.py:114-122 | each cell of the new board is empty if captured, the colour at the move cell, and unchanged otherwise; on an empty move cell the stone stays |
| Legality.SuicideLiberty | my_player3.py:68-69 | the probe finds no liberty exactly when the move is a suicide (no liberty for the placed group after captures) |
| Legality.RemoveSuicideMoves | my_player3.py:64-72 | returns the empty cells with the suicides removed while iterating over the same list |
| Legality.SuicideFilterSound | my_player3.py:64-72 | the result is a row-major, duplicate-free subsequence of the empty cells; every empty cell it drops is a suicide |
| Legality.SuicideFilterSkipsNext | my_player3.py:66-71 | the empty cell right after a removed one is kept, even if it is a suicide |
| Legality.FindLegalMoves | my_player3.py:125-133 | returns the suicide-filtered cells whose next board differs from the previous board, in order |
| Legality.LegalMovesProps | my_player3.py:125-133 | legal moves are a row-major subsequence of the empty cells whose next board differs from the previous one; every empty non-suicide cell with a different next board is legal |
| Legality.KeepCapturing | my_player3.py:138-142 | keeps, in order, the legal moves that capture at least one stone |
| Legality.KeepRoomy | my_player3.py:143-148 | keeps, in order, the legal moves whose stone has at least two liberties on the current board |
| Legality.FindGoodMoves | my_player3.py:135-150 | returns the capturing legal moves if there are any, otherwise the legal moves with at least two liberties |
| Legality.GoodMovesOrder | my_player3.py:135-150 | good moves are a duplicate-free subsequence of the legal moves |
| Legality.GoodMovesCapturing | my_player3.py:138-142 | when some legal move captures, the good moves are exactly the capturing legal moves |
| Legality.GoodMovesFallback | my_player3.py:143-148 | when no legal move captures, the good moves are exactly the legal moves with at least two liberties |
| Legality.GoodMovesFull | my_player3.py:239-240 | 25 good moves means the board is empty and every cell, the centre included, is a good move |
| Seqs.RemoveWhileIteratingSubseq | my_player3.py:66-71 | removing while iterating keeps a subsequence of the list |
| Seqs.RemoveWhileIteratingDrops | my_player3.py:66-71 | only elements that pass the test are removed |
| Seqs.RemoveWhileIteratingKeepsNext | my_player3.py:66-71 | the element after a removed one is never tested and stays |
| Seqs.RemoveExamined | my_player3.py:70-71 | list.remove of the element under the iterator cuts it out at that position and keeps the list duplicate-free |
| Seqs.FilterSpec | my_player3.py:128-132 | a filtering loop keeps exactly the elements that pass, as a subsequence |
| Seqs.FilterOrElseSpec | my_player3.py:137-148 | the first filter's result if any element passes it, otherwise the second filter's, as a subsequence |
| Scoring.CountInRow | my_player3.py:186-190 | counts the cells of a row holding the colour and those holding the opponent's colour |
| Scoring.CountInBoard | my_player3.py:185-190 | counts both colours over the whole board |
| Scoring.CountIsStones | my_player3.py:185-190 | the count of a colour is the number of its stones |
| Scoring.EvaluateBoard | my_player3.py:172-197 | (stones + komi if colour 2) - (opponent stones + komi if the opponent is colour 2) - 2 x opponent liberties + 0.5 x (largest own group - largest opponent group) |
| Scoring.EvaluationSides | my_player3.py:172-197 | the evaluations of one board for both sides add up to -2 x all liberties: everything but the liberty terms is antisymmetric |
| Scoring.EvaluationEmptyBoard | my_player3.py:192-195 | on an empty board the score is +2.5 for colour 2 and -2.5 for colour 1, whichever side evaluates |
| Search.Max | my_player3.py:218 | at least both arguments and equal to one of them |
| Search.Min | my_player3.py:232 | at most both arguments and equal to one of them |
| Search.SearchFinite | my_player3.py:200-235 | every node of the unpruned search has a finite value |
| Search.BestBound | my_player3.py:208-235 | no child among those examined beats the running best for the side to move |
| Search.BestArgmax | my_player3.py:211-231 | the running best is attained by the first move to reach it; every earlier child is strictly worse |
| Search.SearchMove | my_player3.py:200-206 | a leaf has no move, a node without good moves passes, any other node plays one of its good moves |
| Search.MaxIter | my_player3.py:208-221 | one maximising iteration keeps the loop invariant against the unpruned search, or stops at the cut-off with the node's result |
| Search.MinIter | my_player3.py:222-235 | one minimising iteration keeps the loop invariant against the unpruned search, or stops at the cut-off with the node's result |
| Search.PlayChild | my_player3.py:212-214 | the child's score is fail-soft against the unpruned value of the child for the window passed down |
| Search.MaxNode | my_player3.py:208-221 | the maximising loop's score is fail-soft against the best child, and its move is the unpruned best move whenever that best lies strictly inside the window |
| Search.MinNode | my_player3.py:222-235 | the minimising loop's score is fail-soft against the worst child, and its move is the unpruned best move whenever that value lies strictly inside the window |
| Search.Minimax | my_player3.py:200-235 | fail-soft against unpruned minimax: exact score and move inside the window, at most alpha below it, at least beta above it; exact at leaves, at PASS, and with the (-inf, +inf) window |
| Search.FindBestMove | my_player3.py:237-250 | the centre for colour 1 with 25 good moves; for colour 2 with 24, the centre if it is good and the error otherwise; else the move of the unpruned depth-2 search, always a good move or PASS |
| Search.FindBestMoveIntended | my_player3.py:237-250 | as the source, except that colour 2 with 24 good moves and the centre not good plays the picked neighbour of the centre, which is a good move; any other result is a good move or PASS |
| Legality.GoodMovesAllBut | my_player3.py:241-245 | with 24 good moves and one cell outside them, every other cell is a good move |
| Opening.OpeningNoCapture | my_player3.py:90-112 | after the centre opening, no reply of colour 2 captures: the centre stone keeps a liberty |
| Opening.OpeningNotSuicide | my_player3.py:64-72 | after the centre opening, no reply of colour 2 is a suicide |
| Opening.OpeningNotRepeat | my_player3.py:125-133 | after the centre opening, no reply of colour 2 recreates the empty previous board |
| Opening.OpeningRoomy | my_player3.py:143-148 | after the centre opening, every reply of colour 2 has at least two liberties |
| Opening.OpeningLegal | my_player3.py:125-133 | after the centre opening, the legal replies of colour 2 are exactly the cells other than the centre |
| Opening.OpeningGood | my_player3.py:135-150 | after the centre opening, the good replies of colour 2 are exactly the cells other than the centre |
| Opening.OpeningMoves | my_player3.py:135-150 | after the centre opening, colour 2 has exactly 24 good moves and the centre is not one of them |
| Opening.OpeningAsWritten | my_player3.py:241-245 | find_best_move as written, for colour 2 after the centre opening, ends in the error |
| Opening.OpeningIntended | my_player3.py:241-245 | the corrected choice, in the same position, plays a good move next to the centre stone |
| Opening.FirstNoCapture | my_player3.py:90-112 | on the empty board no move of colour 1 captures |
| Opening.FirstNotSuicide | my_player3.py:64-72 | on the empty board no move of colour 1 is a suicide |
| Opening.FirstNotRepeat | my_player3.py:125-133 | on the empty board no move of colour 1 recreates the empty previous board |
| Opening.FirstRoomy | my_player3.py:143-148 | on the empty board every move of colour 1 has at least two liberties |
| Opening.FirstGood | my_player3.py:135-150 | on the empty board, after an empty previous board, every cell is a good move for colour 1 |
| Opening.FirstMoves | my_player3.py:135-150 | on the empty board, after an empty previous board, colour 1 has all 25 cells as good moves |
| Opening.FirstMove | my_player3.py:237-240 | colour 1 moving first, on the empty board after an empty previous board, plays the centre |

## Left out

- Reading `input.txt` and writing `output.txt` (`read_input`, `output`, `run`): file I/O around the engine.
- `homework3.py` and `homework3/my_solution3.py` are not part of this model: they are separate programs unrelated to the board engine.
- Search.FindBestMove: the `random.choice((2, 3), (2, 1), (1, 2), (3, 2))` branch returns `ChoiceError`. Python's `random.choice` takes a single sequence, so this call with four arguments raises TypeError (see Findings). The four cells listed in the call are the neighbours of the centre (my_player3.py:245), so the evident intent is to play one of them; the model follows the code here and gives that behaviour in `Search.FindBestMoveIntended`.
- Search.FindBestMoveIntended: the random pick is the parameter `pick`, and the neighbour played is the one at index `pick % 4` of the source's tuple.
- The iteration order of Python sets in `find_all_connect_group` is unspecified. `Groups.ListsOf` picks an arbitrary order, and every contract that depends on it holds for any order.
- Search.Minimax: requires `alpha < beta`. The only caller passes (-inf, +inf), and the recursive calls inside the loops only receive windows that are still open.
- Floating-point arithmetic is modelled by exact reals. Every score the engine computes is a multiple of 0.5 of magnitude at most 100, so floats represent it exactly.
- The `possible_pos in possible_moves` test of `remove_suicide_moves` is kept in `Legality.RemoveSuicideMoves`; it always holds for the element under the iterator, so it never changes the outcome.

## Findings

| source | as written | input that shows it | evidently intended | confidence | as-written member | corrected member |
|---|---|---|---|---|---|---|
| my_player3.py:241-245 | `random.choice((2, 3), (2, 1), (1, 2), (3, 2))` passes four arguments to a function that takes one sequence, so it raises TypeError | colour 2; previous board empty; current board empty except a colour-1 stone at (2, 2). There are 24 good moves and the centre is not one of them (`Opening.OpeningMoves`), so the branch is reached (`Opening.OpeningAsWritten`) | `random.choice(((2, 3), (2, 1), (1, 2), (3, 2)))`: play a random neighbour of the centre | high; not executed | Search.FindBestMove | Search.FindBestMoveIntended |
