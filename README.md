# Sudoku: dancing-links solver, generator and board, in Dafny

This project models the core of a Python sudoku program and proves properties
of that model.

**The exact cover solver (`solver.py`).** The puzzle is turned into an exact
cover problem.
- There are 324 constraints in four families: cell, row-digit, column-digit
  and box-digit.
- Each placement of a digit in an empty cell is one row of four nodes.
- `SudokuConstraints` builds this table as a toroidal, doubly linked sparse
  matrix held in integer arrays.
- It solves the table with Knuth's Algorithm X: `cover`, `uncover` and a
  recursive `solve` that branches on the uncovered column of least size.
- `SudokuSolver.__call__` writes the solution into the grid, or fills the
  grid with -1 when there is none.

**The generator (`generator.py`).** It seeds the three diagonal boxes with
random permutations, then solves the seeded grid. It then removes clues until
the puzzle is locally minimal: every clue left is needed for the solution to
be unique.

**The playing board (`board.py`).** It maps pixel positions to cells,
computes the cells connected to a selection, and lists the wrong cells. It
keeps an undo history of set, remove and clear moves.

**The old dictionary-based board and tile (`old/board.py`, `old/tile.py`).**
- A backtracking counter of completions, with a limit.
- A randomised generator that fills a solved grid.
- Conversion to and from a dictionary.
- The twenty positions connected to a tile.
- The tile's lock, set and clear operations.

**How the model is organised.**
- The matrix (module `Matrix`, class `SudokuConstraints`) keeps the source's
  arrays `up`, `down`, `sizes` and `covered`. Its methods update them in
  place.
- The arrays that are written once during construction become constant
  sequences: `left`, `right`, `columns` and `actions`.
- Ghost state tracks each column's node order.
- The construction in `__init__`/`add_row`/`link_below` is the class
  `Table.Builder`. Its loops are specified by the functions of module
  `Build`.
- The value-level meaning of the links is in modules `Splice` and `Links`:
  `Splice` holds unlink and relink as functions on a mesh of links; `Links`
  holds node geometry, the table invariant `ValidState`, and the cover step.
- What a solution is, independently of links, is in `Exact`: an exact cover
  of the constraints left open.
- A numpy 9x9 grid is a flat `array<int>` of 81 cells, row-major (cell
  `9 * row + col`).

## Model

| member | source | states |
|---|---|---|
| Constraints.GetConstraints | solver.py:58-71 | the four constraints of a placement are one per family: cell in [0,81), row-digit in [81,162), column-digit in [162,243), box-digit in [243,324) |
| Constraints.ConstraintFamilies | solver.py:58-71 | the i-th constraint of a placement lies in family i and in [0,324) |
| Constraints.SameIndex | solver.py:65-68 | two placements with equal index in one family have the same cell, or the same row, column or box together with the same digit |
| Constraints.SharedConstraint | solver.py:65-68 | two placements share a constraint index exactly when they are in the same cell, or hold the same digit in the same row, column or box |
| Constraints.SlotDetermines | solver.py:58-71 | distinct placements that meet one constraint take distinct slots in [0,9), so no column can hold more than nine rows |
| Splice.RelinkUnlink | solver.py:113-133 | splicing a properly linked node out of its column and back in restores every up/down link and every size |
| Splice.RelinkRevUnlinkAll | solver.py:99-133 | undoing a sequence of unlinks in reverse order restores the links and sizes exactly, when each unlink took out a properly linked node |
| Splice.UnlinkAllAppend | solver.py:109-115 | the unlinks of a concatenation are those of the first part followed by those of the second |
| Splice.RelinkRevAppend | solver.py:127-133 | relinking a concatenation in reverse relinks the second part first, then the first part |
| Splice.UnlinkClosed | solver.py:113-115 | unlinking a node keeps every vertical link inside its column |
| Links.Walks | solver.py:34-37 | walking right from a row node meets its three mates and comes back to it; walking left meets them in reverse |
| Links.MatesDistinct | solver.py:34-37 | the three other nodes of a row are pairwise distinct |
| Links.WalkStep | solver.py:35-37 | one step right from mate t is mate t+1, or the node itself after mate 3 |
| Links.WalkBack | solver.py:34-36 | one step left from mate t is mate t-1, or the node itself from mate 1 |
| Links.CoverSeqTake | solver.py:109-115 | the first 3k nodes that a cover takes out are the nodes of the column's first k rows |
| Links.RowColumns | solver.py:84-90 | the four nodes of a row sit in the columns of the four constraints of its placement, one per column |
| Links.SameRowSameColumn | solver.py:84-90 | two nodes of one row in one column are the same node |
| Links.RemoveLinked | solver.py:113-114 | unlinking the k-th node of a well-linked column leaves the column linked as its node list with that node removed |
| Links.DetachStep | solver.py:113-115 | taking a linked node out of its column keeps the table well formed, removes exactly that node from its column's order, and lowers only that column's size by one |
| Links.CoverKeepsRow | solver.py:99-115 | a row seen from an uncovered column other than c, and not taken out by c's cover, stays whole and open |
| Links.CoverValid | solver.py:99-115 | after a cover of an uncovered column the table invariant holds again |
| Exact.NothingLeft | solver.py:147-148 | when every constraint is covered, the empty list is an exact cover |
| Exact.FitsPlace | solver.py:154-160 | b fits the flags after choosing a exactly when b fits before and a and b meet no common constraint |
| Exact.Extend | solver.py:163-166 | a fitting placement followed by a solution of the problem it leaves is a solution of the whole problem |
| Exact.Without | solver.py:157-174 | taking placement E[i] out of a solution leaves a solution of the problem left after choosing E[i] |
| Exact.NoneThrough | solver.py:168-170 | if the problem left after choosing a has no solution, no solution contains a |
| Exact.NoneAtAll | solver.py:157-174 | if every fitting placement through an uncovered constraint c is excluded, the problem has no solution |
| Exact.NoRowsNoCover | solver.py:151-174 | a table without rows has a solution only when nothing is left to cover |
| Exact.OpenCountLess | solver.py:154-163 | covering more constraints, one of them open before, leaves strictly fewer open (the recursion's measure) |
| Exact.RowMeets | solver.py:84-90 | the constraints of a row's placement are the columns of the row's four nodes |
| Exact.CoverComplete | solver.py:99-115 | after a cover, every row whose placement still fits stays linked into its columns |
| Search.ArgMin | solver.py:151 | np.argmin returns the first index that holds the least value |
| Search.ChoiceOpen | solver.py:151 | when every uncovered column is smaller than max_size, the chosen column is uncovered, of least size, and the first such |
| Search.ChoiceFirst | solver.py:151 | the tie case: when column 0 is masked to max_size and no uncovered column is smaller, argmin picks column 0 |
| Search.RowFits | solver.py:157-160 | a row linked into an uncovered column stands for a placement that has a row and fits; its other three nodes lie in three distinct uncovered columns |
| Search.RowConstraints | solver.py:84-90 | the constraints of a row's placement are the columns of its four nodes |
| Search.PlaceRow | solver.py:154-160 | covering the chosen column and then the columns of the row's other nodes marks exactly the placement's constraints |
| Search.PlaceShrinks | solver.py:154-163 | placing a row leaves fewer constraints open than covering the chosen column alone |
| Search.Candidates | solver.py:48-51 | every placement that has a row, fits, and meets an uncovered column c is the placement of one of c's rows |
| Search.NoRowsFlags | solver.py:151-174 | in a table without rows, any setting of the covered flags keeps the table valid and complete |
| Build.PutNodesNext | solver.py:84-90 | pass i of the node loop hangs node index+i below constraint i of the placement |
| Build.CloseColumns | solver.py:54-56 | closing the columns changes no size |
| Build.HangingOther | solver.py:86-90 | putting a node into column c keeps every other column hanging from its header as before |
| Build.HangingSame | solver.py:86-90 | putting a node into an uncovered column c keeps c hanging from its header, with the new node at the bottom |
| Build.PutNodeGrows | solver.py:86-90 | one pass of the node loop keeps the construction invariant |
| Build.PutNodesGrow | solver.py:84-90 | the passes for one row keep the construction invariant below the nodes already put in |
| Build.PutNodesCells | solver.py:84-90 | the first i passes write constraint t and action a into node index+t, and into no other node |
| Build.PutNodesLists | solver.py:84-90 | the first i passes append node index+t to the list of constraint t, whose size grows by one; no other column changes |
| Build.RowsAfter | solver.py:84-92 | the four nodes that a row puts in start at index and form one whole row of its placement |
| Build.AddRowKeeps | solver.py:73-92 | add_row keeps the invariant: the table below the index it returns consists of whole rows |
| Build.CoveredEmpty | solver.py:78-81 | a covered column receives no node |
| Build.CloseStep | solver.py:54-56 | one pass of the closing loop makes column c a ring and moves nothing else |
| Build.CloseOpen | solver.py:55-56 | the pass for an uncovered column links its lowest node down to the header and the header up to it |
| Build.Built | solver.py:9-56 | after construction every column is a ring holding exactly the rows put into it, every row is linked into its four columns, and a covered column holds no node |
| Table.GivenStep | solver.py:40-43 | marking cell m covers constraint u exactly when m holds a given that meets u; other flags are unchanged |
| Table.GivenMarks | solver.py:40-43 | after the first n cells, a constraint is covered exactly when one of their given digits meets it |
| Table.TriedCells | solver.py:48-51 | every candidate of every empty cell among the first i cells goes through add_row |
| Table.TriedBound | solver.py:13-14 | no more rows are tried than the nine per empty cell that the node arrays make room for |
| Table.Fill | solver.py:46-51 | the row loop leaves the covered flags as the givens set them, and next_index within the node arrays |
| Table.InitialCovered | solver.py:40-56 | the covered flags of the finished table are those of the givens |
| Table.AddRowRecords | solver.py:73-92 | one add_row call on a candidate at an empty cell keeps the record of which placements have rows |
| Table.SkipRecorded | solver.py:78-81 | a candidate blocked by a covered constraint leaves the arrays and the record unchanged |
| Table.FillRecords | solver.py:46-51 | the row loop keeps both the construction invariant and the record of its rows |
| Table.InitialRows | solver.py:40-51 | the table has a row for exactly the placements at empty cells that no given rules out |
| Table.RowsDiffer | solver.py:84-90 | two distinct nodes of one column stand for distinct placements |
| Table.ColumnSlots | solver.py:21 | a column holds at most nine rows |
| Table.ColumnDigits | solver.py:21 | with one empty cell, a column holds at most eight rows, so it stays below max_size = 9 |
| Table.InitialTable | solver.py:9-56 | the finished table is valid and complete; its covered flags are the givens' and those columns are empty; it has rows for exactly the fitting placements; columns are short enough for the argmin of line 151 to pick an uncovered one |
| Table.SkipCell | solver.py:48-51 | the candidates of a cell holding a given add no row |
| Table.FillNext | solver.py:50-51 | the step at digit n of empty cell i is one add_row call, with room for its nodes |
| Table.Builder.constructor | solver.py:9-56 | the arrays end in the state and rows that Initial and InitialFrame describe |
| Table.Builder.MarkGivens | solver.py:40-43 | the covered flags become GivenFlags, with nothing else changed |
| Table.Builder.AddRows | solver.py:46-51 | the arrays and next_index end as Fill says, after add_row on every digit of every empty cell in row-major order |
| Table.Builder.AddCell | solver.py:50-51 | the nine digits of one empty cell go through add_row, as Fill's steps say |
| Table.Builder.CloseAll | solver.py:54-56 | the lowest node of every uncovered column is linked back to its header, as CloseColumns says |
| Table.Builder.LinkBelow | solver.py:94-97 | node's down link and link's up link point at each other; nothing else changes |
| Table.Builder.AddRow | solver.py:73-92 | the arrays end as RowAdded says (unchanged when blocked, else a row of four nodes), and the returned index is the next free node |
| Table.Builder.Free | solver.py:79-81 | the answer is true exactly when none of the placement's four constraints is covered |
| Table.Builder.HangRow | solver.py:84-90 | the four nodes from index on become the placement's row, as PutNodes says |
| Table.Builder.HangNode | solver.py:86-90 | one pass of the loop, as PutNode says |
| Matrix.CoverStateDone | solver.py:99-115 | a whole cover of an uncovered column keeps the table valid and complete, never raises a size, and takes out exactly the nodes of its rows' other columns |
| Matrix.CoverStateColumn | solver.py:109-110 | a cover never changes the links of the covered column itself, so the walk down it proceeds |
| Matrix.CoverPathHolds | solver.py:99-133 | from a valid table, every step of a cover and of the uncover that follows is possible and undoes its partner step |
| Matrix.UncoverStep | solver.py:131-133 | relinking the p-th node of a cover takes the state after that step back to the one before |
| Matrix.TrailFacts | solver.py:159-160 | along the covers of a row's other columns, the table stays valid, complete and ready, and the flags gain exactly those columns |
| Matrix.CoverReady | solver.py:151 | covering a column keeps the column choice safe |
| Matrix.RowStart | solver.py:157-160 | a row of the chosen column has an action, that placement has a row and fits the entry flags, and its other three columns are distinct and uncovered |
| Matrix.ChoiceSafe | solver.py:151 | the chosen column is uncovered, or is column 0 of a table without rows; with its flag cleared the table is valid and complete |
| Matrix.Exhausted | solver.py:172-174 | when no row of the chosen column leads to a solution, there is none at all |
| Matrix.FlagsAfter | solver.py:154-162 | covering the chosen column and the columns of its row's other nodes puts the row's placement in and leaves fewer constraints open |
| Matrix.Descent | solver.py:154-163 | after those covers the flags are the entry flags with the placement put in; fewer constraints are open; the table is valid, complete and safe for the choice |
| Matrix.SudokuConstraints.constructor | solver.py:9-56 | the new table is valid, complete and ready for the search; its state and rows are those of Initial and InitialFrame; max_size is 9 times the number of empty cells |
| Matrix.SudokuConstraints.UnlinkNode | solver.py:113-115 | the up and down arrays and the size become those of Unlink on the node |
| Matrix.SudokuConstraints.DetachNode | solver.py:113-115 | the state becomes Detach on a linked node, the column orders updated |
| Matrix.SudokuConstraints.CoverRow | solver.py:112-115 | every node of one row other than the one in the covered column is taken out: steps 3k to 3k+2 of the cover |
| Matrix.SudokuConstraints.CoverRows | solver.py:109-115 | the rows of the column are processed from the top down, reaching the state after the whole cover |
| Matrix.SudokuConstraints.Cover | solver.py:99-115 | a covered column is left as it is; otherwise the state becomes Covered(old state), the flag of the column alone is set, and the table stays valid, complete and ready |
| Matrix.SudokuConstraints.RelinkNode | solver.py:131-133 | the up and down arrays and the size become those of Relink on the node |
| Matrix.SudokuConstraints.RestoreNode | solver.py:131-133 | one relink takes the state after step p of the cover back to the state before it |
| Matrix.SudokuConstraints.UncoverRow | solver.py:130-133 | the nodes of one row are put back, walking left, from step 3k+3 of the cover to step 3k |
| Matrix.SudokuConstraints.UncoverRows | solver.py:127-133 | the rows are processed from the bottom up, back to the state before the cover except for the flag |
| Matrix.SudokuConstraints.Uncover | solver.py:117-133 | right after a cover from valid state s0, the state is s0 again exactly: every link, size and flag; an uncovered column is left as it is |
| Matrix.SudokuConstraints.CoverRowColumns | solver.py:159-160 | walking right, the columns of the row's other three nodes are covered, and the states before each cover are recorded |
| Matrix.SudokuConstraints.CoverMate | solver.py:160 | one more cover along the row extends the trail |
| Matrix.SudokuConstraints.UncoverRowColumns | solver.py:169-170 | walking left, those columns are uncovered in reverse order, back to the state before the walk right |
| Matrix.SudokuConstraints.Solve | solver.py:135-174 | found: the solution is an exact cover of the entry flags and every flag is set; not found: there is none, and the state is restored (or only flag 0 cleared when the table has no rows); all covered at entry: found with no action; the table stays valid, complete and ready |
| Matrix.SudokuConstraints.Branch | solver.py:151-174 | covers the chosen column, tries its rows, and uncovers it when none leads to a solution; the same outcomes as Solve |
| Matrix.SudokuConstraints.TryRows | solver.py:156-170 | stops at the first row that leads to a solution; otherwise leaves the table as it found it, with every row of the column excluded |
| Matrix.SudokuConstraints.TryRow | solver.py:158-170 | either the solution is the recursive one with the row's action appended, or the row is excluded and the state is back to where it was |
| Solver.AppliedOther | solver.py:196-197 | a cell that no placement writes keeps its value |
| Solver.AppliedCell | solver.py:196-197 | when the placements' cells are distinct, the cell of each holds its digit |
| Solver.GivenCovers | solver.py:40-43 | the constraints of a given digit are covered before the search |
| Solver.EmptyOpen | solver.py:40-43 | the cell constraint of an empty cell is open before the search |
| Solver.FitsOpen | solver.py:48-51 | a placement that fits the given flags is at an empty cell |
| Solver.DistinctCells | solver.py:193-197 | the placements of a solution are in distinct cells |
| Solver.GivenClash | solver.py:40-43 | a placement that clashes with a given cannot fit the given flags |
| Solver.CoverClash | solver.py:193-197 | two placements of a solution never clash |
| Solver.WritesFill | solver.py:196-197 | writing a solution's placements fills the grid, keeps the givens, and clashes only between givens |
| Solver.CoverFills | solver.py:193-197 | an exact cover of the table built for g, written into g, fills every cell and keeps every given |
| Solver.FillsCompletes | solver.py:196-197 | with givens that do not clash, such a filling is a solution of the puzzle |
| Solver.Write | solver.py:196-197 | the grid becomes Applied(old grid, placements) |
| Solver.Complete | solver.py:194-197 | writing a solution of the puzzle's table fills the grid, keeps the givens and is not the failure grid; with consistent givens it is a solution of the puzzle |
| Solver.SolveSudoku | solver.py:177-202 | the same array is returned, either all -1, and then neither the puzzle's table nor the puzzle has a solution, or filled keeping the givens; with consistent givens and no failure it is a solution of the puzzle |
| Solver.Meeting | solver.py:58-71 | in a grid of digits with no clash every one of the 324 constraints is met by some cell: each row, column and box holds every digit |
| Solver.CompletionCovers | solver.py:39-56 | the converse of CoverFills: the placements a solution of the puzzle makes at its empty cells have rows in the table built for it, meet no constraint a given covers, and meet every other constraint exactly once |
| Solver.SolvableIff | solver.py:190-200 | with givens that do not clash, the table has no solution exactly when the puzzle has none |
| Generator.SeededBoxes | generator.py:24-28 | each diagonal box of the seeded grid holds every digit 1..9 once; every other cell is 0 |
| Generator.SeededConsistent | generator.py:27-28 | the seeded grid holds no digit twice in a row, column or box |
| Generator.Seed | generator.py:24-28 | the array becomes the seeded grid of the three permutations |
| Generator.GenerateSolution | generator.py:10-42 | the grid returned is the seeded grid with the actions applied; when the actions are a solution, it is a full solution extending the seeds |
| Generator.FilledCells | generator.py:48 | lists every filled cell below n and nothing else, as many entries as there are clues |
| Generator.ClearFewer | generator.py:55-59 | the grid of each recursive call has one clue fewer |
| Generator.ClearedKeeps | generator.py:54-62 | clearing clues one by one only empties cells, one clue per step |
| Generator.Minimalise | generator.py:45-62 | the result is the input with clues emptied one by one, each removal answered 1 by count_solutions, and no clue left can be removed with answer 1 |
| Generator.GeneratePuzzle | generator.py:65-82 | the puzzle is locally minimal, and it is the generated solution with the clues listed in cleared removed in order, each a clue when removed and each answered 1 by count_solutions; every clue left agrees with the solution |
| Board.ConvertCell | board.py:101-150 | a surface position maps to cell (i, j) exactly when it lies inside that cell's square as generate_cell_positions places it |
| Board.ConvertInGrid | board.py:119-150 | the result is None or a pair of grid indices |
| Board.BlockBound | board.py:125-130 | an offset inside the board lies in one of its three blocks |
| Board.CalculateConnected | board.py:217-239 | None has no connections; otherwise the cells that share a line along either index or the 3x3 block |
| Board.ConnectedSize | board.py:217-239 | a cell of the grid is connected to 21 cells, itself among them |
| Board.IncorrectCells | board.py:183-186 | exactly the wrong cells are listed, each once, as (column, row), in row-major order |
| Board.NoneIncorrect | board.py:183-186 | with no wrong cell, nothing is listed |
| Board.SolvedIncorrect | board.py:175-186 | the grid equals its solution exactly when no cell is empty and none is incorrect |
| Board.Clip | board.py:298 | the index is clipped into 0..8, unchanged when already inside |
| Board.PushReplays | board.py:188-286 | pushing a move made on the grid keeps the history replayable by undo |
| Board.PopReplays | board.py:198-212 | undoing the last move gives back the grid before it, and the rest stays replayable |
| Board.SudokuBoard.constructor | board.py:35-71 | the board size is 9 * (cell size + 2); no selection, no hover, no connected or incorrect cells, no moves |
| Board.SudokuBoard.SetSudoku | board.py:152-173 | a puzzle whose solution count is not 1 is refused and nothing changes; otherwise the board takes the array, its solution and its clues as locked cells, and everything else is reset |
| Board.SudokuBoard.Clear | board.py:188-195 | a copy of the grid is pushed, then every unlocked cell is emptied; locked cells keep their clues |
| Board.SudokuBoard.Undo | board.py:198-215 | with nothing to undo nothing changes; otherwise the last move is popped and the grid is exactly as before it |
| Board.SudokuBoard.Restore | board.py:207-212 | a set or remove move writes back one cell; a clear writes back the whole grid |
| Board.SudokuBoard.ClearSelectedCell | board.py:256-265 | an unlocked selected cell is emptied and the write is pushed; a locked one is left alone |
| Board.SudokuBoard.SetSelectedCell | board.py:267-286 | a digit outside 1..9 changes nothing and answers None; otherwise an unlocked selected cell takes the digit, the move is pushed, and the answer is whether the digit is correct |
| Board.SudokuBoard.Select | board.py:241-244 | the selection is the cell under the position, if any, and the connected cells follow it |
| Board.SudokuBoard.Hover | board.py:246-248 | the hovered cell is the cell under the position, if any; nothing else changes |
| Board.SudokuBoard.DeselectAll | board.py:250-254 | no selection, no hover and no connected cells |
| Board.SudokuBoard.MoveSelection | board.py:288-299 | with no selection nothing moves; otherwise both indices move by the given amounts, clipped, and the connected cells follow |
| OldBoard.FillFewer | old/board.py:188-190 | filling an empty grid position leaves one empty position fewer |
| OldBoard.FirstEmptyFound | old/board.py:167-177 | the place found is at or after the start, on the grid, and empty |
| OldBoard.FirstEmptyFirst | old/board.py:167-177 | every place from the start up to the one found is filled |
| OldBoard.FindTile | old/board.py:167-177 | the first missing position scanning from start's row and column, in row-major order, or none |
| OldBoard.FreeStep | old/board.py:180-182 | excluding one more position drops the digit it holds when still free; otherwise nothing changes |
| OldBoard.FreeConnected | old/board.py:179-182 | excluding exactly the connected tiles leaves the candidates of the tile |
| OldBoard.Numbers | old/board.py:179-182 | the digits 1..9 in order, less every digit held by a connected tile |
| OldBoard.CountSum | old/board.py:164-193 | unfolds the step case of Count, as a proof step for Backtrack: below 81 entries, the count from a place is the sum over the candidates of the first empty place |
| OldBoard.Backtrack | old/board.py:159-193 | the number the search counts from start when it is at most limit, and a number above limit otherwise; when every place before start is filled, as in every call from the top, that number is the number of distinct completions of the board |
| OldBoard.SumStep | old/board.py:186-193 | adding a recursive result keeps the running total the sum so far, or passes limit, and then so does the full sum |
| OldBoard.EntriesAndEmpty | old/board.py:164-165 | on the grid, entries and empty positions add up to 81 |
| OldBoard.FullBoard | old/board.py:164-165 | a board with 81 entries on the grid fills every position |
| OldBoard.Extend | old/board.py:188-190 | filling a position with an allowed digit keeps every completion of the filled board a completion of the board |
| OldBoard.CountSound | old/board.py:159-193 | when the search counts a completion, the board has one |
| OldBoard.CountComplete | old/board.py:159-193 | a completable board with every place before k filled counts at least one completion from k |
| OldBoard.CountIffCompletable | old/board.py:159-193 | from the top, the count is positive exactly when the board can be completed |
| OldBoard.CandidatesAllowed | old/board.py:179-182 | every candidate of a position is a digit 1..9 that no connected tile holds |
| OldBoard.CandidatesRising | old/board.py:179-182 | the candidates are strictly increasing, so no digit is tried twice |
| OldBoard.CompletionCandidate | old/board.py:179-190 | a completion of a board holds one of the candidates at each empty position |
| OldBoard.FullSelf | old/board.py:164-165 | a board with 81 entries on the grid is its own and only completion |
| OldBoard.SolsExact | old/board.py:159-193 | with every place before k filled, the completions the search visits from k are exactly the completions of the board, and there are Count(board, k) of them |
| OldBoard.SolsForExact | old/board.py:186-193 | for distinct allowed candidates of the first empty position, the completions visited are exactly those holding one of the candidates there; the candidates' sets are disjoint, so they number the sum of the candidates' counts |
| OldBoard.CompletionsExact | old/board.py:159-193 | the completions the search visits from the top are exactly the completions of the board |
| OldBoard.CompletionsFrom | old/board.py:159-193 | with every place before k filled, the count from k is the number of completions of the board |
| OldBoard.CountOne | old/board.py:121-133 | the count from the top is 1 exactly when the board has one and only one completion, the test generate_start makes |
| OldBoard.PendingPop | old/board.py:141-154 | filling the first pending position leaves the rest pending |
| OldBoard.ExtendsStep | old/board.py:149-154 | placing an allowed digit keeps the extension proper |
| OldBoard.FilledCompletes | old/board.py:140-156 | a proper extension that fills the grid is a completion |
| OldBoard.CandidateKnown | old/board.py:145-154 | a completable board offers, among the candidates at an empty position, one that the search accepts |
| OldBoard.Accept | old/board.py:149-155 | accepting a candidate at the first pending position keeps every invariant of the generator |
| OldBoard.GenerateSolution | old/board.py:140-156 | the board only gains allowed digits; a completable board stays completable; with enough rounds it is a solved grid |
| OldBoard.EmptyCompletable | old/board.py:140 | the empty board can be completed |
| OldBoard.EmptyStart | old/board.py:140 | the empty board is on the grid, completable, and leaves all 81 places empty |
| OldBoard.GenerateFromEmpty | old/board.py:140-156 | from the default empty board, 81 rounds or more fill a solved grid |
| OldBoard.NewRow | old/board.py:42 | the fresh, empty, unlocked tiles of one row, column by column |
| OldBoard.NewTiles | old/board.py:42 | nine rows of fresh, empty, unlocked tiles; tile c of row r stands at (c, r) |
| OldBoard.Board.constructor | old/board.py:31-51 | fresh empty unlocked tiles, the start size (34 when none or 0 is given), and a solution extending the empty board, a solved grid with 81 rounds or more |
| OldBoard.Board.ToDict | old/board.py:53-54 | the numbered tiles as a dictionary from position to digit; only digits 1..9 appear |
| OldBoard.Board.FromDict | old/board.py:56-65 | every tile is cleared and unlocked, then takes the dictionary's digit at its position, locked when asked; keys off the grid and values outside 1..9 are ignored |
| OldBoard.Board.LoadedDict | old/board.py:53-65 | after fromDict, toDict gives back the digits of the dictionary |
| OldTile.AreaCount | old/tile.py:24-28 | the first loop pair lists 8 tiles: the tile's area without the tile |
| OldTile.OtherCount | old/tile.py:29-35 | the second loop pair lists 12 tiles: two other areas along the column and two along the row |
| OldTile.FromColumn | old/tile.py:32-33 | the three tiles of the column in an area are the peers of the next three ranks |
| OldTile.FromRow | old/tile.py:34-35 | the three tiles of the row in an area are the peers of the next three ranks |
| OldTile.AreaListed | old/tile.py:24-28 | the first loop pair lists the peers in the tile's own area, in order |
| OldTile.OtherListed | old/tile.py:29-35 | the second loop pair lists the peers outside the area, in order |
| OldTile.ListedAll | old/tile.py:18-36 | a listing of every rank below 36 is complete and without repeats |
| OldTile.AllListed | old/tile.py:18-36 | the two loop pairs together list the 20 peers, each once |
| OldTile.FindConnectedTiles | old/tile.py:18-36 | 20 pairwise distinct positions, none the tile itself; each shares a column, row or area with it, and every such position is listed |
| OldTile.Tile.constructor | old/tile.py:7-16 | unlocked, empty, and holding its connected positions |
| OldTile.Tile.SetNumber | old/tile.py:50-53 | an unlocked tile takes a digit 1..9; anything else leaves the number; the lock never changes |
| OldTile.Tile.Lock | old/tile.py:45-48 | the tile ends locked, holding num when it is a digit 1..9 and its previous number otherwise |
| OldTile.Tile.ClearNumber | old/tile.py:55-60 | an unlocked tile, or any tile when unlock is asked, becomes empty; unlock also lifts the lock |

## Left out

- `count_solutions`, `solve_randomly` and the static `SudokuSolver.solve` are called (`generator.py:35`, `generator.py:58`, `board.py:160`) but not defined in the code. In `Generator`, the solution count is a function parameter and the actions of `solve_randomly` are a parameter: none, or an exact cover of the seeded table. In `Board.SudokuBoard.SetSudoku`, the count and the solution are parameters.
- Randomness (`np.random.seed`, `np.random.permutation`, `random.shuffle`) is a parameter: the diagonal-box permutations, the removal order, and the old generator's shuffles.
- Drawing is not modelled: `render_board`, `draw`, `centre`, `render`, the text surfaces and colours of `board.py` (73-99, 302-348), `draw` of `old/board.py` (67-89), and `get_draw_rect` and the number surface of `old/tile.py`. These are pygame I/O.
- The command-line parts of `solver.py` (204-258) and `generator.py` (84-119), and `main.py` and `old/main.py`. These are I/O and event loops.
- `get_pos`, `hover` and `select` of `old/board.py` (91-117) are left out. They work on float camera positions and mouse state.
- `generate_start` of `old/board.py` (119-138) is left out. It puts a digit back into its list of positions (`validTiles.append(x)` where the key was meant), so later rounds look a digit up as a position. `OldBoard.Board.constructor` therefore stops before it. The `print` calls of the constructor are left out as output.
- Board.SudokuBoard.ClearSelectedCell requires a selection, because the code indexes the selection before it tests it for None, which would raise.
- Board.SudokuBoard.SetSelectedCell requires a selection for digits 1..9, for the same reason.
- Board.SudokuBoard.constructor leaves the grid empty; the code leaves it undefined until `set_sudoku`.
- Board.ConvertSurfacePos and the board class require a cell size of 0 or more. A negative size from `int(cell_size)` is not modelled.
- `SudokuBoard.incorrect` is a sequence. `calculate_incorrect` returns a list, although it is annotated as a set.
- The numpy 9x9 grids are flat arrays of 81 cells. `np.argmin`, `np.where`, `np.nonzero` and `clip` are written out as Dafny functions. The placeholder `np.nonzero` in `actions` is `None` of an option.
- Matrix.SudokuConstraints.Solve requires `Ready()`: either no empty cell, or every uncovered column smaller than `max_size`. The constructor establishes it, and cover keeps it. Without it, the argmin tie of `solver.py:151` could choose a covered column.
- Matrix.SudokuConstraints.Uncover is specified only right after a cover of the same column, and on an uncovered column. That is how `solve` uses it; an uncover at any other moment has no contract.
- Matrix.SudokuConstraints.Solve in a puzzle without empty cells: on failure it clears flag 0, as the code does, rather than restoring the state.
- Solver.SolveSudoku promises a complete solution only for consistent givens, because the code marks the givens' constraints without checking them for clashes (`solver.py:40-43`). For any givens it promises a filling that keeps them and clashes only where two givens already clash.
- Python recursion depth and object identity are not modelled; the recursion of `solve` is unbounded.
- OldBoard.Backtrack takes a dictionary board on the grid. The conversion of a `Board` object and the type check at `old/board.py:160-163` are not modelled, and `start` must be a grid position.
- OldBoard.GenerateSolution bounds its rounds by a fuel parameter. The code loops until no tile is left, and would not stop on a board that cannot be completed.
- The fonts and colours of `old/tile.py` and `old/board.py` are left out, as display state.
