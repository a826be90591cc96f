# ggp in Dafny

A model of the core of `ggp`, a general game-playing engine written in C++.
The engine has two parts:

- **Search.** This part does not know which game it plays. It has:
  - fixed-depth minimax, negamax and principal variation search (negascout);
  - the "basic minimax" player, which scores every root move and plays the best one;
  - Monte-Carlo tree search with UCB1 (UCT) and flat Monte-Carlo play;
  - a random player;
  - the match driver;
  - a bump-allocator memory pool and an index sort;
  - the turn and outcome bookkeeping that every game state embeds.
- **Geometry and games.** Board geometry covers a triangular index table, rectangular and centred hexagonal boards, and 64-bit bitboards. Flood fills over square boards test edge-to-edge connection, group size and liberties. The games are tic-tac-toe, Connect-4, Connect-6, Yavalath, Tanbo, Druid (square and hexagonal), Congo, Gonnect, Breakthrough and a Tetris stub.

How the model is built:

- **Modules and games.** Each source header is one module. The engine modules are generic over a game given as a record of operations (`GameContract.Game`): `moves`, `move`, `game_over`, `score`, `winner`, `current` and `clear`. The engine works on game states as values, so `copy_from` is plain assignment.
- **Objects.** A game state or player whose methods update its fields in place is a `class`. Its fields are sequences, maps or arrays, and its methods carry `modifies` clauses. Each such method is proved against specification functions over values, and lemmas state the rules of the game in terms of those functions.
- **Randomness.** `random()` is a nondeterministic choice in methods and an oracle parameter in functions.
- **Failure paths.** A `DIE` or `assert` in the source becomes a precondition, except where a finding below models the failure itself.
- **Unbounded loops.** Loops that run until the game ends take a bound on the number of steps, as stated under "## Left out".

Fixed-width integers are written out where the width matters: 8-bit and 16-bit counters, 32-bit sentinels, 64-bit words as `bv64`, and 32-bit negation (Common.Neg32) in Strategy.TaskScore and in the search members named `AsWritten`. Where the wrap-around makes a search miss its evident intent, the exact search beside it is the one the rest of the model uses, as listed under "## Findings".

## Model

| member | source | states |
|---|---|---|
| Common.Other | engine/common.h:45-52 | Black and White swap; `None` stays `None` |
| Common.OtherInvolution | engine/common.h:45-52 | taking the opponent twice gives the colour back |
| Common.OtherOfPlayer | engine/common.h:45-52 | a player's opponent is a player and never the player itself |
| Common.ColorStr | engine/common.h:54-61 | the name printed for each colour |
| Common.ColorStrInjective | engine/common.h:54-61 | different colours print different names |
| State.Outcome | engine/state.h:24-28 | 1 exactly when the winner is `c`, 0 exactly when the winner is the opponent of `c`, 1/2 otherwise |
| State.OutcomeZeroSum | engine/state.h:24-28 | Black's and White's results add up to one point |
| State.OutcomeOfNone | engine/state.h:24-28 | asked for `NONE`, the first test matches a drawn game and gives 1 |
| State.BaseState.Current | engine/state.h:18 | the side to move is the opponent of the side that just played |
| State.BaseState.Reset | engine/state.h:11-14 | no winner, White just played so Black moves, game-over flag unchanged |
| State.BaseState.SetGameOver | engine/state.h:19 | the game is over; winner and last mover unchanged |
| State.BaseState.EndMove | engine/state.h:22 | the side that was to move becomes the side that just played; nothing else changes |
| State.BaseState.Result | engine/state.h:24-28 | the result for `c` is the outcome of the stored winner for `c` |
| State.EndMoveTwice | engine/state.h:22 | two hand-overs give the turn back to the same side |
| Memory.MemoryPool.Issued | engine/memory.h:24-28 | the slots handed out since the last clear are 0, 1, ..., counter-1 |
| Memory.MemoryPool.Prealloc | engine/memory.h:15-17 | fresh storage is allocated; the counter is kept |
| Memory.MemoryPool.Alloc | engine/memory.h:24-28 | storage is allocated on the first call only; the slot returned is the old counter, inside the storage, never handed out before; the counter grows by one; the source's assertion `counter < size` is the precondition |
| Memory.MemoryPool.Clear | engine/memory.h:30 | the counter is back to zero and no slot counts as issued |
| RandomPlayer.Random.Next | engine/random.h:11-19 | the move list is the state's legal moves; with moves, the state after is the state with one of the listed moves played; with none, the state is only marked over |
| GameLoop.MoverAt | engine/game.h:27-36 | Black moves on turn 0 and the sides alternate |
| GameLoop.RunAlternates | engine/game.h:28-37 | the sides that move form the strict alternation from the starting side, and a match that ends before the turn bound ended in a finished state |
| GameLoop.Game.SetParam | engine/game.h:15-22 | the parameter reaches the named side's player only; `NONE` is refused (the source asserts) |
| GameLoop.Game.Play | engine/game.h:24-41 | from the cleared state, the final state and the number of turns are those of the alternating match starting with Black; the winner returned is the final state's winner; stopping before the bound means the game is over |
| Sort.PermutationKeepsIndices | engine/sort.h:32-41 | rearranging the entries keeps the indices a permutation of 0..n-1 |
| Sort.IndexSort.At | engine/sort.h:45 | the entry read is one of the table's entries |
| Sort.IndexSort.SetValue | engine/sort.h:45 | writing a value through `operator[]` changes that entry's value only and keeps its index |
| Sort.IndexSort.Sort | engine/sort.h:40 | the entries end in ascending order of value and are a permutation of the entries before |
| Sort.IndexSort.RSort | engine/sort.h:41 | the entries end in descending order of value and are a permutation of the entries before |
| Sort.IndexSort.SortBy | engine/sort.h:17-26 | the entries end ordered by the chosen comparator (`<` or `>`) and are a permutation of the entries before |
| Sort.IndexSort.Insert | engine/sort.h:40-41 | one insertion step: the prefix up to `i` becomes ordered and the array is a permutation of the array before |
| Text.Byte | games/ttt.h:290-297 | the conversion to `uint8_t`: a value below 256 congruent to the input modulo 256 |
| Text.ByteOfSmall | games/ttt.h:290-297 | values that fit in a byte are unchanged by the conversion |
| Text.Decimal | games/ttt.h:290-291 | the decimal text of a number is non-empty and made of digits |
| Text.DigitsOfDecimal | games/ttt.h:290-291 | the digits of a number read back as that number |
| Text.AtoiDecimal | games/ttt.h:290-291 | `atoi` reads back the decimal text of any number |
| Text.AtoiNoDigits | games/ttt.h:290-291 | `atoi` of a text that starts with no digit, sign or space is 0 |
| SquareGrid.IndexOfIsLinear | games/ttt.h:123 | the cell index of column x, row y is x + y*SIZE |
| SquareGrid.IndexOfXY | games/ttt.h:123 | the column `i % SIZE` and row `i / SIZE` of a cell give the cell back |
| SquareGrid.XYOfIndex | games/ttt.h:123 | column and row are read back from the index x + y*SIZE |
| SquareGrid.AreaIsSquare | games/ttt.h:239 | the number of cells is SIZE*SIZE |
| SquareGrid.CellInBoard | games/ttt.h:123 | a column and a row on the board give a cell below SIZE*SIZE |
| SquareGrid.CellOfIndex | games/ttt.h:239 | every cell below SIZE*SIZE has its column and row on the board |
| GameContract.Children | engine/minimax/minimax.h:12-15 | one child per legal move, in move-list order: the state copied and the move played |
| Minimax.MaxFrom | engine/minimax/minimax.h:34-40 | the running `std::max` from a start value: at least the start and every value, and equal to one of them |
| Minimax.MinFrom | engine/minimax/minimax.h:26-32 | the running `std::min` from a start value: at most the start and every value, and equal to one of them |
| Minimax.ChildValues | engine/minimax/minimax.h:27-38 | one searched value per legal move |
| Minimax.MaxNode | engine/minimax/minimax.h:33-41 | at a maximising interior node the search value is at least every child's value and is either INT_MIN or one of them (INT_MIN when there are no moves) |
| Minimax.MinNode | engine/minimax/minimax.h:25-32 | at a minimising interior node the search value is at most every child's value and is either INT_MAX or one of them (INT_MAX when there are no moves) |
| Minimax.SearchBounded | engine/minimax/minimax.h:17-42 | when the scores of the tree and its move lists keep away from the sentinels, the search value lies in [-INT_MAX, INT_MAX] |
| Negamax.ChildValues | engine/minimax/negamax.h:25-29 | one child value per legal move, negated exactly (the intended negation; see Findings) |
| Negamax.NegatedMin | engine/minimax/negamax.h:24-30 | the negated minimum of values is the maximum of their negations |
| Negamax.SearchIsMinimax | engine/minimax/negamax.h:16-31 | negamax equals minimax for the maximiser and minimax negated for the minimiser, on every tree whose values stay in the 32-bit range |
| Negamax.SearchBounded | engine/minimax/negamax.h:16-31 | on such trees the negamax value lies in [-INT_MAX, INT_MAX] |
| Negamax.FlagIsNotNegation | engine/minimax/negamax.h:16-31 | the maximise flag is not a change of sign: on a two-leaf root the maximiser's value (2) is not the negated minimiser's value (-1) |
| Negamax.SearchIsBestChild | engine/minimax/negamax.h:24-30 | an interior node is worth at least the negated value of every child, and equals one of them unless it stays at INT_MIN |
| Negamax.LeafAsWritten | engine/minimax/negamax.h:17-18 | the leaf value as a 32-bit `int`, always in range, equal to the exact leaf value when the score fits the symmetric range |
| Negamax.SearchAsWritten | engine/minimax/negamax.h:16-31 | `search` as the source computes it: its value always lies in the 32-bit range |
| Negamax.ChildValuesAsWritten | engine/minimax/negamax.h:25-29 | one child value per legal move, each `-search(child)` with 32-bit wrap-around, in range |
| Negamax.AsWrittenAgrees | engine/minimax/negamax.h:16-31 | on every tree whose values stay in the symmetric range, the search as written equals the exact search |
| Negamax.MovelessChildWraps | engine/minimax/negamax.h:24-27 | a root whose only child has no move and is not over gets INT_MIN as written, below the negation of its child's value, where the exact search gives 2^31 |
| Negascout.FailSoftExact | engine/minimax/negascout.h:29-70 | a fail-soft result for a window that contains the true value is that value |
| Negascout.Pvs | engine/minimax/negascout.h:29-70 | the result is fail-soft against the negamax value for the window (an upper bound at or below alpha, a lower bound at or above beta, exact inside) and an interior node never returns less than alpha |
| Negascout.TryChildren | engine/minimax/negascout.h:50-69 | the loop over the sorted children with the null window and the re-search: fail-soft against the maximum of the children's negated values |
| Negascout.Cutoff | engine/minimax/negascout.h:62-64 | a beta cutoff on a child's lower bound is fail-soft for the whole node |
| Negascout.AllTried | engine/minimax/negascout.h:60-69 | after every child is tried without a cutoff, alpha is fail-soft for the node |
| Negascout.SearchChild | engine/minimax/negascout.h:54-58 | a null-window search followed, when it fails high inside the window, by the full-window re-search gives a fail-soft bound of the child's value for the full window |
| Negascout.PermutationKeepsScores | engine/minimax/negascout.h:36-47 | sorting the index table keeps each entry's value equal to its child's static score |
| Negascout.StaticScores | engine/minimax/negascout.h:38-42 | one static score per child |
| Negascout.OrderChildren | engine/minimax/negascout.h:36-47 | the children are the legal-move children; the index table is sorted descending for the maximiser and ascending for the minimiser, each entry carrying its child's static score |
| Negascout.Search | engine/minimax/negascout.h:21-27 | with a representable negamax value the result is the negated negamax value, and on bounded trees the negated minimax value for the maximiser and the minimax value for the minimiser |
| Common.Neg32 | engine/minimax/negascout.h:54 | 32-bit negation: `-x` except that INT_MIN stays INT_MIN |
| Common.Int32 | engine/minimax/negascout.h:67 | 32-bit wrap-around of a value; values in range are unchanged |
| Negascout.PvsAsWritten | engine/minimax/negascout.h:29-70 | the source's search on 32-bit values, with the child order a parameter standing for the sort: the result is a 32-bit value |
| Negascout.TryAsWritten | engine/minimax/negascout.h:50-69 | the source's child loop on 32-bit values: the result is a 32-bit value |
| Negascout.SearchAsWritten | engine/minimax/negascout.h:21-27 | the source's root call with the window (INT_MIN, INT_MAX): the result is a 32-bit value |
| Negascout.WrapOrderSorted | engine/minimax/negascout.h:36-47 | the child order used in the counterexample is the one the ascending sort produces |
| Negascout.WindowWrapCutsShort | engine/minimax/negascout.h:21-70 | on a three-ply tree the source's search returns -10 where the negated negamax value is -5: the negated INT_MIN window wraps and cuts the search short |
| Strategy.FirstBestUnique | engine/minimax/strategy.h:81-89 | the index picked by the strict first-best scan is unique |
| Strategy.FirstBestStep | engine/minimax/strategy.h:83-87 | one step of the scan keeps the first strictly best index seen so far |
| Strategy.TaskScore | engine/minimax/strategy.h:29-35 | the task's score lies in the 32-bit range |
| Strategy.TaskScoreExact | engine/minimax/strategy.h:29-35 | for a search result in the symmetric range the score is that result, negated for the minimiser |
| Strategy.TaskScoreWraps | engine/minimax/strategy.h:34-35 | a child searched to INT_MIN scores INT_MIN for the minimiser, which beats the minimiser's INT_MAX start, where the exact negation would not |
| Strategy.BasicMinimax.Child | engine/minimax/strategy.h:112-115 | the child for move `i` is the state with that move played |
| Strategy.BasicMinimax.SyncScores | engine/minimax/strategy.h:98-103 | the sequential path scores each child by the search with the mover's own flag |
| Strategy.BasicMinimax.TaskScores | engine/minimax/strategy.h:27-39 | a task scores its child by the search with the opposite flag, as a 32-bit `int`, negated with wrap-around for the minimiser |
| Strategy.BasicMinimax.SyncSearch | engine/minimax/strategy.h:93-110 | the index returned is the first child strictly better than the start score and every earlier child, or -1 |
| Strategy.BasicMinimax.AsyncSearch | engine/minimax/strategy.h:65-90 | the same first-best choice over the tasks' scores |
| Strategy.BasicMinimax.Next | engine/minimax/strategy.h:42-63 | the move list is refreshed; with no moves the state is left as `moves` marks it, over; otherwise the move played is the first-best child when one beats the sentinel, else a listed move drawn at random |
| Strategy.PathsDisagree | engine/minimax/strategy.h:27-103 | the sequential and the threaded path can score the same child differently (2 against 1 at depth 1 on a two-leaf root) |
| Uct.CountUntried | engine/uct.h:78-90 | the number of untried moves never exceeds the number of moves |
| Uct.NoneTried | engine/uct.h:36-44 | a fresh node's flags: all moves untried, the untried count equal to the number of moves |
| Uct.CountMarked | engine/uct.h:82-87 | marking an untried move tried lowers the untried count by one |
| Uct.Hits | engine/uct.h:225-227 | the number of iterations that reached a node is at most the number of iterations, and equals it exactly when every one did |
| Uct.HitsAppend | engine/uct.h:225-227 | the reaching iterations of two consecutive runs add up |
| Uct.ArgMaxSpec | engine/uct.h:63-75 | `select`'s scan: -1 exactly when no score beats the start value; otherwise a score above the start, at least every score, and strictly above every earlier score (the first maximum wins) |
| Uct.ArgMaxStep | engine/uct.h:67-73 | one step of the scan: the candidate changes exactly when the new score beats the best so far |
| Uct.FirstMax | engine/uct.h:201-209 | `move`'s scan: the first child with the most visits |
| Uct.Perspective | engine/uct.h:168-173 | the side credited at level `t` above the leaf is the start side at even levels and its opponent at odd levels |
| Uct.Ancestors | engine/uct.h:169-172 | the path from a node up through its parents ends at the root; every step goes to an earlier node and follows the parent link |
| Uct.AncestorsDistinct | engine/uct.h:169-172 | no node occurs twice on the path to the root |
| Uct.CreditElsewhere | engine/uct.h:169-172 | nodes off the path keep their visits and wins |
| Uct.CreditEach | engine/uct.h:169-172 | every node on the path gets exactly one more visit and the result of the final state for its level's side |
| Uct.MarkKeeps | engine/uct.h:82-87 | an untried move exists while the untried count is positive, and marking it keeps the bookkeeping consistent |
| Uct.AppendKeepsBooks | engine/uct.h:95-98 | adding a child for a tried move keeps each node's untried count equal to its unmarked moves |
| Uct.LinkKeepsShape | engine/uct.h:99-106 | linking a new child after `last` keeps the child/next/last links a list of the children in order, ending in null |
| Uct.AllocKeepsShape | engine/uct.h:96-97 | a freshly allocated node with no links keeps the tree's shape |
| Uct.ShapeChain | engine/uct.h:67 | following `child` and then `next` visits a node's children in order and ends in null |
| Uct.ChildScores | engine/uct.h:49-68 | one UCB score per child, computed from the child's wins and visits and the parent's visits |
| Uct.ChildVisits | engine/uct.h:201-206 | one visit count per child |
| Uct.RootAlone | engine/uct.h:233-235 | the reset root alone is a well-formed tree |
| Uct.AppendKeepsTree | engine/uct.h:95-107 | adding a node keeps the whole tree well-formed |
| Uct.Credit | engine/uct.h:166-174 | the loop up the parent links produces exactly the credited visits and wins of the path to the root |
| Uct.PickAmong | engine/uct.h:63-75 | no child is picked exactly when every score is at most the start value INT_MIN; otherwise the first child with the best score |
| Uct.SelectAmong | engine/uct.h:63-75 | the loop over the sibling links returns the child `PickAmong` names |
| Uct.MostVisited | engine/uct.h:197-209 | the loop over the sibling links returns the first child with the most visits |
| Uct.Player.SetParam | engine/uct.h:252 | the exploration constant becomes the parameter |
| Uct.Player.Iterations | engine/uct.h:242-246 | the iterations actually run: MAX_ITER rounded down to a multiple of NUM_THREADS |
| Uct.Player.Pick | engine/uct.h:63-75 | the child `select` picks is a later node of the tree |
| Uct.Player.NodeSelect | engine/uct.h:63-75 | returns the picked child; null exactly when no child's score beats INT_MIN |
| Uct.Player.NodeExpand | engine/uct.h:77-93 | marks the untried move whose rank among the untried moves is given by the random choice, lowers the untried count by one and keeps the tree well-formed |
| Uct.Player.Alloc | engine/uct.h:30-37 | the new node is the next pool slot; it holds the node's moves from the working state and an empty snapshot (the source's `init` copies its own state onto itself) |
| Uct.Player.Link | engine/uct.h:99-106 | the new node becomes the last child of its parent |
| Uct.Player.NodeAdd | engine/uct.h:95-108 | allocation, `init`, marking and linking together: one more node, child of `k`, for move `m` |
| Uct.Player.Descend | engine/uct.h:136-144 | the state and the node reached are those of the walk, and the node reached has untried moves or no child |
| Uct.Player.Grow | engine/uct.h:146-154 | a fully expanded node is left as it was; otherwise one child, with no visit and no win, is added for the expanded move and the working state has that move played; existing nodes keep their statistics |
| Uct.Player.Rollout | engine/uct.h:156-164 | a run of random steps from the start state, each from a state not yet over; fewer steps than the bound means the game is over |
| Uct.Player.Backprop | engine/uct.h:166-174 | only the visits and wins of the path to the root change, credited as `Credit` states |
| Uct.Player.Playout | engine/uct.h:188-192 | rollout to a final state reached by random steps, then backprop from the node: exactly the nodes from it to the root gain a visit and the result for their side, nothing else changes, and the root gains one visit |
| Uct.Player.Iterate | engine/uct.h:176-193 | a walk that reaches no node changes nothing; otherwise the reached node, or its new child, is backed up from with the rollout's result: exactly its ancestors in the grown tree gain a visit and their side's result, and the root one visit |
| Uct.Player.Choose | engine/uct.h:195-216 | with no child the state is marked over; otherwise the move of the first most visited child is played |
| Uct.Player.Reset | engine/uct.h:233-235 | the pool is cleared and the root holds the moves of the state with all untried |
| Uct.Player.Task | engine/uct.h:219-229 | `iter` iterations add at most `iter` nodes, the root gains exactly one visit per iteration whose descent reached a node, and the root's moves are left alone |
| Uct.Player.Next | engine/uct.h:232-251 | after the reset and all tasks, the tree holds at most one node per iteration and the root's visits are the iterations that reached a node; with no child the state is marked over, otherwise the most visited child's move is played |
| MonteCarlo.Zeros | engine/montecarlo.h:19 | `reset`: every count is zero |
| MonteCarlo.Bump | engine/montecarlo.h:20 | `add`: one count goes up by one, the others are unchanged |
| MonteCarlo.Plus | engine/montecarlo.h:21-25 | `push`: the counts add up index by index |
| MonteCarlo.TotalZeros | engine/montecarlo.h:19 | the counts of a reset counter sum to zero |
| MonteCarlo.TotalBump | engine/montecarlo.h:20 | `add` raises the sum of the counts by one, as it raises `sum` |
| MonteCarlo.TotalPlus | engine/montecarlo.h:21-25 | `push` adds the two sums of counts, as it adds the two `sum` fields |
| MonteCarlo.Tally | engine/montecarlo.h:85 | the counts a playout's moves add to its temporary counter |
| MonteCarlo.TallyTotal | engine/montecarlo.h:85 | a playout's tally sums to its number of moves |
| MonteCarlo.MaxValid | engine/montecarlo.h:28-36 | the first loop of `best`: at least the count of every accepted index, and when positive the count of one of them |
| MonteCarlo.Tops | engine/montecarlo.h:38-41 | the second loop of `best`: every index whose count equals the best, and nothing else |
| MonteCarlo.TopsMayBeInvalid | engine/montecarlo.h:38-42 | the drawn index may be one the position does not accept: with counts [2, 2] and only index 0 accepted, index 1 is among the tops |
| MonteCarlo.RepeatIsTimes | engine/montecarlo.h:104-105 | adding the same result k times adds k times the result |
| MonteCarlo.PathExtend | engine/montecarlo.h:76-87 | a playout path extended by a legal move from a state not over is a playout path |
| MonteCarlo.Counter.Reset | engine/montecarlo.h:19 | all counts and the sum are zero |
| MonteCarlo.Counter.Add | engine/montecarlo.h:20 | one count and the sum go up by one |
| MonteCarlo.Counter.Push | engine/montecarlo.h:21-25 | the other counter's counts and sum are added |
| MonteCarlo.Counter.Best | engine/montecarlo.h:27-55 | found exactly when an accepted index has a positive count; the index returned has the best accepted count and is drawn among all indices with that count |
| MonteCarlo.Player.Slot | engine/montecarlo.h:75-82 | the result slot is the first move's index, or 0 when no move was made |
| MonteCarlo.Player.Walk | engine/montecarlo.h:76-87 | the playout loop: a path of random moves; the first move is counted in `win_first` and every move in the temporary counter |
| MonteCarlo.Player.Play | engine/montecarlo.h:69-93 | `win_first` counts the first move; `wins` gains the playout's tally exactly when `c` won; the result slot of the first move gains `c`'s outcome |
| MonteCarlo.Player.Task | engine/montecarlo.h:95-107 | results never decrease; the copy is not restored between playouts, so once the first playout ends the game each later one adds the same outcome to slot 0 only |
| MonteCarlo.Player.Next | engine/montecarlo.h:109-140 | with no moves the state is only marked over; otherwise the move played is one drawn by `best` from `win_first` when an accepted move has a positive count, and the state is unchanged when none has |
| Board.Put | engine/board.h:37-42 | the index table grown as needed, with the number `j` at row y, column x |
| Board.PutOthers | engine/board.h:37-42 | growing and writing one entry leaves every other entry as it was (new entries are 0) |
| Board.LaidExtend | engine/board.h:35-42 | laying the next number at the next triangle cell keeps coordinates and index table inverse to each other |
| Board.Record | engine/board.h:31-42 | one pass of `init`'s loop keeps its progress invariant |
| Board.TriHexLookup.Init | engine/board.h:27-49 | numbers 0..i are laid out row by row on the triangle (x <= y, number Tri(y)+x), and the index table maps each cell back to its number; stops at `j >= i` |
| Board.InitZeroNeverStops | engine/board.h:44-45 | with i = 0 the test `j > i-1` on 64-bit unsigned values is never true, so `init(0)` never returns |
| Board.InitStopsAtI | engine/board.h:44-45 | for i >= 1 the test as written is `j >= i` |
| Board.Rectangle.Area | engine/board.h:61 | AREA is MAX_X * MAX_Y |
| Board.Rectangle.Set | engine/board.h:67-70 | the cell written holds the value and every other cell is unchanged; the source's `valid` assertion is the precondition |
| Board.Label | engine/board.h:82-90 | a label is the column character followed by the row character of the tables as written |
| Board.LabelRowsSwapped | engine/board.h:83 | rows 10 and 11 are labelled 'l' and 'k', out of alphabetical order |
| Board.SortedLabel | engine/board.h:82-90 | the label with the row letters in alphabetical order |
| Board.SortedLabelIsAlphabetical | engine/board.h:83 | row y is labelled with the y-th letter of the alphabet |
| Board.Width | engine/board.h:120-122 | row y of a hexagon of side n has n+y cells in the upper half and 3n-2-y in the lower half, between n and DSIZE |
| Board.WidthEnds | engine/board.h:120-122 | the top row has n cells and the middle row DSIZE |
| Board.RowCellsValid | engine/board.h:124-126 | the listing of the first k rows holds only valid cells of those rows |
| Board.RowCellsComplete | engine/board.h:124-126 | every valid cell of the first k rows is listed |
| Board.Cells | engine/board.h:124-126 | the valid cells of the hexagon, each listed |
| Board.UpperRows | engine/board.h:115-122 | the first k <= n rows hold k(2n+k-1)/2 cells |
| Board.LowerRows | engine/board.h:115-122 | the cell count of the first n+t rows, by the lower widths |
| Board.AreaIsCellCount | engine/board.h:115 | AREA = 1 + 3n(n-1) is the number of valid cells |
| Board.Reverse | engine/board.h:215-225 | the reverse direction differs from the direction |
| Board.ReverseInvolution | engine/board.h:215-225 | reversing twice gives the direction back |
| Board.StepStaysValid | engine/board.h:154-252 | a step in a direction `has_move` allows lands on a valid cell |
| Board.StepBack | engine/board.h:154-252 | after a step, the reverse direction is allowed and steps back to the start |
| Board.Hex.Set | engine/board.h:128-131 | the cell written holds the value and every other cell is unchanged |
| Board.Hex.Move | engine/board.h:239-252 | blocked exactly when `has_move` refuses; a blocked move leaves the position, an allowed one takes the step |
| Bitboard.Bit | engine/bitboard.h:72 | `iis_set` is 0 or 1 |
| Bitboard.SetBitSpec | engine/bitboard.h:70 | `iset(i)` makes bit i one and leaves every other bit alone |
| Bitboard.SetBitAt | engine/bitboard.h:70 | bit j after `iset(i)`: 1 at i, the old bit elsewhere |
| Bitboard.ClearBitSpec | engine/bitboard.h:71 | `iclear(i)` makes bit i zero and leaves every other bit alone |
| Bitboard.ClearBitAt | engine/bitboard.h:71 | bit j after `iclear(i)`: 0 at i, the old bit elsewhere |
| Bitboard.AndBit | engine/bitboard.h:70-72 | a bit of a conjunction is set exactly when it is set in both words |
| Bitboard.OrBit | engine/bitboard.h:70-72 | a bit of a disjunction is set exactly when it is set in either word |
| Bitboard.NotBit | engine/bitboard.h:67-68 | a bit of the complement is set exactly when it is clear in the word |
| Bitboard.AndNotBit | engine/bitboard.h:71 | a bit of `b & ~c` is set exactly when it is set in b and clear in c |
| Bitboard.InvertSpec | engine/bitboard.h:67-68 | `invert` flips every bit, and inverting twice changes nothing |
| Bitboard.Index | engine/bitboard.h:142 | `index(x, y) = x + (y << 3)`: for a column below 8, column and row are read back from it |
| Bitboard.SquaresDiffer | engine/bitboard.h:142 | different squares of the 8x8 layout have different bits |
| Bitboard.NumberSquare | engine/bitboard.h:142 | the bit of square (x, y) is number `index(x, y)` |
| Bitboard.OffBoardSquares | engine/bitboard.h:147 | the squares `valid` refuses on the 8x8 layout are exactly column 7 and row 7 |
| Bitboard.Bits.ISet | engine/bitboard.h:70 | the word becomes the old word with bit i set |
| Bitboard.Bits.IClear | engine/bitboard.h:71 | the word becomes the old word with bit i cleared |
| Bitboard.Bits.Invert | engine/bitboard.h:68 | the word becomes its complement |
| Bitboard.Bits.Set | engine/bitboard.h:143 | the word becomes the old word with the bit of `index(x, y)` set |
| Bitboard.Bits.Clear | engine/bitboard.h:144 | the word becomes the old word with the bit of `index(x, y)` cleared |
| Bitboard.Bits.TrySet | engine/bitboard.h:147-148 | an on-board square is set; off the board nothing changes; the off-board bits never change |
| Bitboard.Bits.BinStr | engine/bitboard.h:95-101 | 64 characters, character k showing bit 63-k |
| Bitboard.BitChar | engine/bitboard.h:99 | the digit written is '1' exactly when the bit is set |
| Bitboard.TrySetStaysOnBoard | engine/bitboard.h:147-148 | setting an on-board square leaves the off-board bits as they were |
| Bitboard.Log2IsFloor | engine/bitboard.h:12-17 | `Log2<I>::result` is the floor of the base-2 logarithm of I |
| Bitboard.HighestBit | engine/bitboard.h:23-30 | `bsrq`: a set bit with no higher set bit |
| Bitboard.LowestBit | engine/bitboard.h:33 | `__builtin_ctzl`: a set bit with no lower set bit |
| Bitboard.HighestIsLowestOnSingleBit | engine/bitboard.h:20-34 | on a word with one set bit the highest and the lowest set bit are both that bit, so `log2` answers as its comment says for the words its callers pass |
| Bitboard.SingleHighest | engine/bitboard.h:23-30 | a single-bit word has no other highest set bit |
| Bitboard.SingleLowest | engine/bitboard.h:33 | a single-bit word has no other lowest set bit |
| Bitboard.IsolateLowest | games/congo2.h:81 | `n & (~n + 1)` is the lowest set bit of a non-zero word on its own |
| Bitboard.Popcount | engine/bitboard.h:40-49 | a 64-bit word has at most 64 set bits |
| Bitboard.CountClearAbove | engine/bitboard.h:40-47 | clearing a bit leaves the count of the bits above it alone |
| Bitboard.CountClearBelow | engine/bitboard.h:40-47 | clearing a set bit lowers the count from any lower position by one |
| Bitboard.PopcountClear | engine/bitboard.h:42-45 | the K&R step `x &= x-1` on a set bit lowers the population count by one |
| Search.NeighboursSymmetric | engine/search.h:45-48 | the four `SEARCH` neighbours are symmetric: c is a neighbour of each of its neighbours |
| Search.Steps | engine/search.h:45-48 | the four `SEARCH(x, y, cond)` steps: each goes to a neighbour, and on the board its `cond` says whether that neighbour is on the board |
| Search.EnclosedBySteps | engine/search.h:45-48 | after the four steps, every neighbour of colour k has been seen |
| Search.NoCrossing | engine/search.h:54-68 | once every start cell of colour k is seen and the search closed without reaching the target, no path of colour k crosses the board |
| Search.ReachSymmetric | engine/search.h:35-52 | connection through cells of one colour is symmetric |
| Search.ReachTransitive | engine/search.h:35-52 | connection through cells of one colour is transitive |
| Search.GroupOfMember | engine/search.h:87-103 | connected cells have the same group |
| Search.GroupIsFresh | engine/search.h:105-118 | a cell newly measured by `longest` starts a group none of whose cells had been seen |
| Search.TallyStep | engine/search.h:111-115 | measuring one more group keeps `best` the size of the largest group measured |
| Search.GroupHasSelf | engine/search.h:87-103 | a cell of colour k lies in its own group, which thus has at least one cell |
| Search.LibertiesFound | engine/search.h:128-155 | the empty cells marked by the walk from a stone are exactly its group's liberties |
| Search.PathFinder.Clear | engine/search.h:70-74 | colour and board are set and no cell is marked |
| Search.PathFinder.Search | engine/search.h:35-52 | true: a path of `color` from (x, y) to a target cell; false: (x, y) is marked and the cells marked here are no targets and have all their neighbours of `color` marked |
| Search.PathFinder.Explore | engine/search.h:41-51 | the four `SEARCH` steps of `search`: a path to a target, or every neighbour of `color` marked and the search closed |
| Search.PathFinder.Try | engine/search.h:41-43 | one `SEARCH` step: a path from c, or the neighbour marked when it has `color` |
| Search.PathFinder.SearchEastWest | engine/search.h:54-60 | true: a path of `color` from column 0 to the last column; false: every first-column cell of `color` is marked and the search closed |
| Search.PathFinder.SearchNorthSouth | engine/search.h:62-68 | true: a path from a first-row cell not marked before to the last row; false: every first-row cell of `color` not marked before is marked now |
| Search.PathFinder.Connected | engine/search.h:76-85 | true exactly when a path of c crosses the board, west to east for White and north to south otherwise |
| Search.PathFinder.ConnectedAny | engine/search.h:121-126 | as written: true only for a real crossing, always for a west-east crossing, and never when there is no west-east crossing and no cell of c on the first row past the corner |
| Search.PathFinder.ConnectedEither | engine/search.h:121-126 | with the marks cleared between the searches: true exactly when a path of c crosses in either direction |
| Search.PathFinder.Length | engine/search.h:87-103 | the number of cells newly marked, all reached from (x, y) through `color` |
| Search.PathFinder.Measure | engine/search.h:91-99 | the four `SEARCH` steps of `length`: every neighbour of `color` marked and the count of newly marked cells returned |
| Search.PathFinder.TryLength | engine/search.h:91-93 | one `SEARCH` step of `length`: the neighbour of `color` marked, the count of newly marked cells returned |
| Search.PathFinder.Longest | engine/search.h:105-119 | the size of the largest group of c: every group is at most it, and some group has that size when it is positive |
| Search.PathFinder.LongestInColumn | engine/search.h:110-116 | one column of `longest`'s loops: every cell of `color` up to column x is measured and `best` is the largest group measured |
| Search.PathFinder.TallyCell | engine/search.h:111-115 | one cell of `longest`'s loops: an unmeasured cell of `color` is measured and `best` kept as the largest group measured |
| Search.PathFinder.LibertyCount | engine/search.h:128-150 | the number of empty cells newly marked; an empty start counts 1 and an enemy start 0, each marking only itself |
| Search.PathFinder.Gather | engine/search.h:139-147 | the four `SEARCH` steps of `liberty_count`: every on-board neighbour marked, the empty cells among the new marks counted |
| Search.PathFinder.TryLiberty | engine/search.h:139-141 | one `SEARCH` step of `liberty_count`: an on-board neighbour is marked |
| Search.PathFinder.Liberties | engine/search.h:152-155 | an empty cell has 1; a stone has the number of liberties of its group |
| Search.ColumnCrossesOnlyNorthSouth | engine/search.h:121-126 | a 3x3 board whose first column is black crosses north to south only and has no black first-row cell past the corner |
| Search.ConnectedAnyOnColumn | engine/search.h:121-126 | on that board `connected_any` as written answers false while the search with cleared marks answers true |
| TicTacToe.MoveList.Clear | games/ttt.h:49 | the list is empty |
| TicTacToe.MoveList.Add | games/ttt.h:51-54 | the cell is appended; the capacity SIZE*SIZE is the precondition |
| TicTacToe.CellsOf | games/ttt.h:72-79 | cell i is Black when Black's bit is set, else White when White's is, else empty |
| TicTacToe.Column | games/ttt.h:122-125 | column x: the n cells x + y*SIZE, all on the board |
| TicTacToe.Row | games/ttt.h:126-128 | row y: the n cells x + y*SIZE, all on the board |
| TicTacToe.Diagonal | games/ttt.h:135-137 | the main diagonal: the n cells x + x*SIZE |
| TicTacToe.AntiDiagonal | games/ttt.h:143-147 | the anti-diagonal: n cells, column SIZE-1-y of row y |
| TicTacToe.FirstColumn | games/ttt.h:160-174 | the colour of the first column held entirely by one player, searching from x; `None` exactly when no such column remains |
| TicTacToe.FirstRow | games/ttt.h:176-190 | the colour of the first row held entirely by one player, searching from y; `None` exactly when no such row remains |
| TicTacToe.CompletionIsWin | games/ttt.h:156-214 | the corrected `complete` names a winner exactly when some player holds a whole line, and that player holds one |
| TicTacToe.CompletionAgreesOnOddBoards | games/ttt.h:192-211 | on boards of odd size the source's `complete` and the corrected one agree |
| TicTacToe.AntiDiagonalBoardDiagonals | games/ttt.h:192-211 | on the 4x4 board used below, the anti-diagonal is Black's and the main diagonal is empty |
| TicTacToe.AntiDiagonalBoardColumns | games/ttt.h:160-174 | no column of that board is one player's |
| TicTacToe.AntiDiagonalBoardRows | games/ttt.h:176-190 | no row of that board is one player's |
| TicTacToe.AntiDiagonalMissed | games/ttt.h:192-211 | Black has won that board, yet the source's `complete` returns `NONE` (the empty main diagonal is reported first); the corrected one returns Black |
| TicTacToe.Tally | games/ttt.h:124-137 | the count of a colour on the first k cells of a line is at most k |
| TicTacToe.BalanceOf | games/ttt.h:130-133 | a line's contribution is (10^b - 1) - (10^w - 1) for b black and w white stones |
| TicTacToe.AxisBalanceNext | games/ttt.h:119-134 | the outer loop adds the balance of column x and of row x |
| TicTacToe.Swapped | games/ttt.h:75-79 | the board with the colours exchanged |
| TicTacToe.TallySwapped | games/ttt.h:124-128 | exchanging the colours exchanges the counts |
| TicTacToe.BalanceSwapped | games/ttt.h:130-133 | exchanging the colours negates every line's balance |
| TicTacToe.AxisBalanceSwapped | games/ttt.h:119-134 | exchanging the colours negates the balance of all columns and rows |
| TicTacToe.ScoreFavoursBlack | games/ttt.h:115-154 | the score of a board plus the score of its colour-swapped board is 600: the two 300 terms both favour Black whatever `maximise` is |
| TicTacToe.OpenCells | games/ttt.h:238-243 | the empty cells below k, each below k |
| TicTacToe.OpenCellsExact | games/ttt.h:238-243 | a cell is listed exactly when it is empty and below k, in increasing order |
| TicTacToe.OpenCellsGrow | games/ttt.h:239-242 | one more pass of the loop appends the cell when it is empty |
| TicTacToe.State.Cells | games/ttt.h:72-79 | one colour per cell of the SIZE*SIZE board |
| TicTacToe.State.ColorAt | games/ttt.h:75-79 | `color(i)` is the colour of cell i |
| TicTacToe.State.Feature | games/ttt.h:81-85 | `operator[]`: 1 or 0; an even index asks whether cell i/2 is Black, an odd one whether it is White |
| TicTacToe.State.Place | games/ttt.h:100-107 | only cell i changes, to colour c; the source's assertions (empty cell, a player's colour) are the precondition |
| TicTacToe.State.Ipow | games/ttt.h:109-113 | `ipow(x, p)` is x to the power p-1 (1 when p < 2) |
| TicTacToe.State.CountLines | games/ttt.h:120-129 | the black and white counts of column x and of row x |
| TicTacToe.State.LineWeights | games/ttt.h:130-133 | the weights added for column x and row x differ by their balances |
| TicTacToe.State.AxisWeights | games/ttt.h:116-138 | the first loop: the balance of all columns and rows, and the counts of the main diagonal |
| TicTacToe.State.AntiCounts | games/ttt.h:142-147 | the counts of the anti-diagonal |
| TicTacToe.State.Score | games/ttt.h:115-154 | the score is the sum of all line balances plus 300, whatever `maximise` is |
| TicTacToe.State.Uniform | games/ttt.h:164-170 | true exactly when every cell of the line has the colour of its first cell |
| TicTacToe.State.FirstFullColumn | games/ttt.h:160-174 | the first loop of `complete` |
| TicTacToe.State.FirstFullRow | games/ttt.h:176-190 | the second loop of `complete` |
| TicTacToe.State.Complete | games/ttt.h:156-214 | the corrected completion: a winner exactly when a player holds a whole line |
| TicTacToe.State.Move | games/ttt.h:226-236 | the side to move takes cell m; the winner is the completion of the new board; the game is over once someone has won; the mover becomes the side that just played |
| TicTacToe.State.MovesFor | games/ttt.h:238-243 | the empty cells are appended in increasing order |
| TicTacToe.State.Moves | games/ttt.h:245-255 | a finished game lists nothing; otherwise the empty cells are appended and the game is over when the list is empty |
| TicTacToe.State.RandomMove | games/ttt.h:257-263 | a move is found exactly when the game is not over and a cell is empty, and it is an empty cell |
| TicTacToe.ParseMoveExact | games/ttt.h:284-299 | the corrected parser accepts exactly two tokens whose numbers are from 1 to SIZE, and returns that column and row |
| TicTacToe.ParseMoveRoundTrip | games/ttt.h:284-299 | parsing the printed 1-based column and row gives the cell back, with the source's parser too on boards up to 256 |
| TicTacToe.ParseMoveRefusesZero | games/ttt.h:289-296 | "0" wraps to 255 and both parsers refuse it |
| TicTacToe.ParseMoveWraps | games/ttt.h:289-296 | as written "257" wraps to column 0 and is accepted; the corrected parser refuses it |
| Connect4.Reverse | games/connect4.h:150-158 | the reverse of a direction differs from it |
| Connect4.ReverseInvolution | games/connect4.h:150-158 | reversing twice gives the direction back |
| Connect4.WalkReverse | games/connect4.h:140-158 | k steps in the reverse direction are -k steps in the direction |
| Connect4.CanStepIsOnBoard | games/connect4.h:126-138 | `valid(d, x, y)` holds exactly when the step from (x, y) in direction d stays on the board |
| Connect4.Step | games/connect4.h:140-148 | `move_dir` lands on the board, one step along the direction |
| Connect4.ScanIsRun | games/connect4.h:160-170 | `scan` measures a run: its first r cells hold c and the next one does not, or is off the board |
| Connect4.ScanCoversRun | games/connect4.h:160-170 | a run of m cells of c from (x, y) makes `scan` at least m |
| Connect4.LineLengthIsSegment | games/connect4.h:172-177 | `line_length` is 0 on a cell not holding c, and otherwise the length of the maximal segment of c through the cell |
| Connect4.LongLineHasRun | games/connect4.h:172-177 | a line length of at least len means a run of len cells through the cell |
| Connect4.RunMakesLongLine | games/connect4.h:172-177 | a run of len cells through the cell makes the line length at least len |
| Connect4.LineOfRun | games/connect4.h:172-177 | line length at least len exactly when a run of len cells of the cell's colour passes through it |
| Connect4.ConnectsIff | games/connect4.h:179-186 | `connect4` (of a given length) holds exactly when a run of that length through the cell exists in one of the four line directions |
| Connect4.PlayableIff | games/connect4.h:216 | the unsigned test `height == 0 \|\| height-1U < MAX_Y-1U` means the column has room |
| Connect4.OpenColumns | games/connect4.h:215-217 | the listed columns, each below k |
| Connect4.OpenColumnsExact | games/connect4.h:215-217 | a column is listed exactly when the test accepts it, in increasing order |
| Connect4.OpenColumnsGrow | games/connect4.h:215-217 | each pass of the loop appends the column when it has room |
| Connect4.ValidIndexIsListed | games/connect4.h:68 | the corrected `valid_index` accepts exactly the columns `moves` lists |
| Connect4.ValidIndexRefusesLastCell | games/connect4.h:68 | a column with one free cell is listed by `moves` but refused by `valid_index` as written |
| Connect4.FeatureAsWrittenMixesColours | games/connect4.h:71-78 | as written, a white piece lights the even (black) half and the odd half never lights |
| Connect4.Feature | games/connect4.h:71-78 | the corrected feature: 1 on the even half exactly for Black and on the odd half exactly for White |
| Connect4.ParseMove | games/connect4.h:246-255 | one token is accepted, read by `atoi`, less one, modulo 256; anything else is refused |
| Connect4.ParseMoveRoundTrip | games/connect4.h:246-255 | parsing the printed 1-based column gives the column back |
| Connect4.ParseMoveUnchecked | games/connect4.h:252 | "0" is accepted as column 255: nothing checks the range |
| Connect4.MoveList.Clear | games/connect4.h:39 | the list is empty |
| Connect4.MoveList.Add | games/connect4.h:42-45 | the column is appended; the source's assertion `count < MAX_MOVES` is the precondition |
| Connect4.DropKeepsStacked | games/connect4.h:97-102 | dropping a piece on a column with room keeps every column filled from the bottom up to its height |
| Connect4.State.Result | games/connect4.h:104-108 | the result is the outcome of the winner for c |
| Connect4.State.Place | games/connect4.h:97-102 | the piece goes in the column's lowest free cell and the height goes up by one; nothing else changes |
| Connect4.State.Move | games/connect4.h:189-200 | the side to move drops a piece; it wins, and the game ends, exactly when the piece makes a line of four; the mover becomes the side that just played |
| Connect4.State.Moves | games/connect4.h:211-221 | a finished game lists nothing; otherwise every column with room in increasing order, and game over when the list is empty |
| Connect4.State.RandomMove | games/connect4.h:202-209 | a column is found exactly when the game goes on and one has room, and it has room |
| Connect6.ChooseOne | games/connect6.h:20-28 | C(n, 1) = n |
| Connect6.ChooseAbove | games/connect6.h:20-28 | C(n, k) = 0 when k > n |
| Connect6.PairsOfOneMore | games/connect6.h:20-28 | C(n + 1, 2) = C(n, 2) + n: one more cell adds one pair with each earlier cell |
| Connect6.Absorb | games/connect6.h:20-28 | k C(n, k) = n C(n - 1, k - 1), the step of `binomial_coeff<N,K>` |
| Connect6.Complement | games/connect6.h:76-84 | (n - k) C(n, k) = n C(n - 1, k) |
| Connect6.Binomial | games/connect6.h:20-28 | the compile-time `binomial_coeff<N,K>::result` is C(N, K) |
| Connect6.BinomialExact | games/connect6.h:20-28 | the division in `binomial_coeff` is exact |
| Connect6.BinStep | games/connect6.h:79-82 | each `r *= n--; r /= d` step of `bin_coeff` divides exactly and moves from C(n, d - 1)-shaped to C(n, d) |
| Connect6.RowStartTotal | games/connect6.h:155-177 | the pairs starting before row a plus the pairs among the cells from a on are all pairs |
| Connect6.RowStartGrows | games/connect6.h:155-177 | later rows start at larger pair indices |
| Connect6.PairOf | games/connect6.h:155-165 | the k-th pair (i, j) of `index_to_moves` has i < j < A and index k |
| Connect6.PairIndexBound | games/connect6.h:167-177 | the index `get_index` gives a pair i < j < A is below C(A, 2) |
| Connect6.PairIndexInjective | games/connect6.h:167-177 | distinct pairs get distinct indices |
| Connect6.PairOfIndex | games/connect6.h:155-177 | `index_to_moves(get_index(i, j))` is (i, j): the two are inverse |
| Connect6.Popcount | games/connect6.h:90 | `occupied.count()` is at most the board area |
| Connect6.Union | games/connect6.h:87 | `s.black \| s.white` holds a cell exactly when either side does |
| Connect6.EmptyBelowExact | games/connect6.h:103-113 | the empty cells below i, in increasing order, are exactly the unoccupied x < i |
| Connect6.EmptyCellsCount | games/connect6.h:90 | the number of empty cells is the area less `occupied.count()` |
| Connect6.RowPairsCount | games/connect6.h:117-128 | row a of the pair walk has as many pairs as empty cells after a, or none if a is occupied |
| Connect6.PairsBelowCount | games/connect6.h:117-128 | the pairs whose first cell is below i, plus the pairs among the empty cells from i on, are all pairs of empty cells |
| Connect6.EmptyPairsCount | games/connect6.h:92 | the pair walk of `fill_move` lists C(e, 2) pairs on a board with e empty cells |
| Connect6.RowPairsExact | games/connect6.h:117-128 | row a of the walk lists exactly the pairs (a, j) of empty cells with j below the bound |
| Connect6.RowPairsLex | games/connect6.h:117-128 | a row of the walk is increasing |
| Connect6.PairsBelowExact | games/connect6.h:117-128 | the walk up to row i lists exactly the empty pairs whose first cell is below i, in lexicographic order |
| Connect6.PairsBelowLex | games/connect6.h:117-128 | the walk up to row i is lexicographically increasing |
| Connect6.PairsBeforeRow | games/connect6.h:117-128 | every pair of an earlier row comes before every pair of row a |
| Connect6.EmptyListingsExact | games/connect6.h:100-130 | the single-cell walk lists exactly the empty cells and the pair walk exactly the pairs i < j of empty cells, both without repeats and in order |
| Connect6.EmptyBelowPrefix | games/connect6.h:103-113 | the walk up to i is a prefix of the walk up to any later j |
| Connect6.RowPairsPrefix | games/connect6.h:117-128 | a row cut at j is a prefix of the row cut at k >= j |
| Connect6.PairsBelowPrefix | games/connect6.h:117-128 | the walk up to row i is a prefix of the walk up to row k >= i |
| Connect6.CellFound | games/connect6.h:103-113 | an empty cell i sits at position (number of empty cells below i) of the walk |
| Connect6.PairFound | games/connect6.h:117-128 | a pair (i, j) of empty cells sits at position (pairs of earlier rows + pairs of row i before j) of the walk |
| Connect6.ChooseTwoGrows | games/connect6.h:92-97 | with three or more empty cells there are at least as many pairs as cells, so the count is not 1 |
| Connect6.SetAsWrittenAgrees | games/connect6.h:86-98 | away from the last two cells of a two-stone turn, `set` as written gives the count and turn kind of `SetCount` |
| Connect6.SetAsWrittenLastPair | games/connect6.h:86-98 | with two empty cells on a two-stone turn there is exactly one move, and `set` as written stops on `assert(empty == 1)` |
| Connect6.SetCountListing | games/connect6.h:86-130 | the count `set` leaves is the number of moves `fill_move` can make for the turn kind it leaves |
| Connect6.MoveList.Clear | games/connect6.h:69-74 | `clear` empties the occupancy, zeroes the count and the move, and makes the turn a one-stone one |
| Connect6.MoveList.BinCoeff | games/connect6.h:76-84 | the `bin_coeff` loop returns C(n, k) |
| Connect6.MoveList.Set | games/connect6.h:86-98 | `set` copies `black \| white` into the list and sets the count and turn kind to `SetCount` of the empty cells |
| Connect6.MoveList.FillMove | games/connect6.h:100-130 | `fill_move(k)` puts the k-th empty cell (one-stone turn) or the k-th empty pair (two-stone turn) in `m`, changing nothing else |
| Connect6.MoveList.At | games/connect6.h:132-135 | `ml[k]` returns the k-th move of the listing |
| Connect6.Grid | games/connect6.h:204-208 | the board as an n x n colour grid: each cell's colour is the cell's `color(i)` |
| Connect6.MoveDir | games/connect6.h:237-264 | `move_dir` from a cell with `valid(d, i)` lands on the board one step along d |
| Connect6.ScanIsGridScan | games/connect6.h:276-286 | `scan` on the bitsets is the grid scan of the colour grid |
| Connect6.LineLengthIsGrid | games/connect6.h:288-293 | `line_length` on the bitsets is the grid line length |
| Connect6.Found6IsSixInARow | games/connect6.h:295-301 | `found6(i)` holds exactly when a run of six or more of i's colour passes through i in one of the four lines |
| Connect6.Stones | games/connect6.h:314-326 | the stones of a move: cell a and, on a two-stone turn, cell b are set, every other cell is as before |
| Connect6.NextCell | games/connect6.h:349 | `(i+1) % AREA` is i + 1, or 0 after the last cell |
| Connect6.State.Result | engine/state.h:24-28 | the inherited `result(c)`: the outcome of the stored winner for c |
| Connect6.State.Feature | games/connect6.h:194-198 | `s[i]` is 1.0 for a black cell, -1.0 for a white one and 0.0 for an empty one |
| Connect6.State.Place | games/connect6.h:223-229 | `place(c, i)` sets cell i in c's bitset and nothing else |
| Connect6.State.Move | games/connect6.h:314-329 | `move` places the mover's stones, declares the mover the winner when a placed stone completes six in a row, makes every later turn a two-stone turn and passes the turn |
| Connect6.State.RandomWalk | games/connect6.h:331-354 | `random_walk` finds an empty cell (other than s when skipping), or reports false only when there is none |
| Connect6.State.Sweep | games/connect6.h:341-353 | the wrap-around sweep visits every cell once and finds an empty cell other than s if there is one |
| Connect6.State.RandomMove | games/connect6.h:356-374 | `random_move` returns two distinct empty cells a < b, and false only when fewer than two cells are empty |
| Connect6.State.Moves | games/connect6.h:376-384 | `moves` leaves a finished game alone; otherwise it sets the list from the board and ends the game when the list is empty |
| Connect6.State.IndexToMoves | games/connect6.h:155-165 | `index_to_moves(k)` gives the pair of index k |
| Connect6.State.GetIndex | games/connect6.h:167-177 | `get_index(m)` gives the index of the pair (m.a, m.b) |
| Connect6.State.ValidIndex | games/connect6.h:179-183 | `valid_index(k)` holds exactly when both cells of the k-th pair are empty |
| Connect6.State.SetIndex | games/connect6.h:185-190 | `set_index(m, k)` makes m the k-th pair |
| Yavalath.SetMove | games/yavalath.h:17-20 | `Move::set` keeps the four low bits of each coordinate, so both are below 16 |
| Yavalath.SetMoveRoundTrip | games/yavalath.h:14-20 | coordinates below 16 read back unchanged through `x()` and `y()` |
| Yavalath.CellMove | games/yavalath.h:17-20 | a move built for a cell of the array holds that cell |
| Yavalath.MoveList.Clear | games/yavalath.h:46 | `clear` empties the list |
| Yavalath.MoveList.Add | games/yavalath.h:49-52 | `add(x, y)`, below capacity, appends the move (x, y) and changes nothing else |
| Yavalath.Walk | games/yavalath.h:120-130 | the cell k steps along d, when it exists, is on the board |
| Yavalath.ScanIsRun | games/yavalath.h:120-130 | `scan` measures a run: its first r cells along d hold c and the next one does not, or is off the board |
| Yavalath.RunStops | games/yavalath.h:120-130 | a cell not holding c, or one with no move along d, ends the scan there |
| Yavalath.RunAhead | games/yavalath.h:120-130 | a cell holding c with a move along d adds one to the scan of the next cell |
| Yavalath.WalkNext | games/yavalath.h:124-126 | walking j + 1 steps is one `move` then j steps |
| Yavalath.LineLengthIsSegment | games/yavalath.h:132-137 | `line_length` is the length of the maximal segment of c through the cell, along d's axis, whose both outer neighbours do not hold c |
| Yavalath.Complete | games/yavalath.h:159-169 | `complete`: exactly N-1 in a row on some axis loses, checked first; else N or more wins; else nobody |
| Yavalath.LosingLineFirst | games/yavalath.h:159-169 | a line of exactly N-1 loses even when another axis holds N or more |
| Yavalath.RowEmptiesExact | games/yavalath.h:216-222 | one row of `moves` lists exactly the empty cells of the row left of the bound, at most one per column |
| Yavalath.EmptyRowsExact | games/yavalath.h:215-223 | the first k rows of `moves` list exactly the empty valid cells of those rows, at most one per cell |
| Yavalath.EmptyMovesFit | games/yavalath.h:215-223 | `moves` lists exactly the empty cells of the board, at most `AREA` of them and all `AREA` on an empty board, so a list of capacity `AREA` has room |
| Yavalath.RowCellsAt | games/yavalath.h:75-87 | cell x of row y sits at position (valid cells of earlier rows) + x of the row-major listing |
| Yavalath.CellValue | games/yavalath.h:81-83 | a cell's input is 1 exactly for Black, -1 exactly for White and 0 otherwise |
| Yavalath.ProbeAsWrittenColumnZero | games/yavalath.h:198-200 | `random() % DSIZE*DSIZE` as C parses it always yields column 0 |
| Yavalath.ProbeReachesEverySquare | games/yavalath.h:198-200 | the intended `random() % (DSIZE*DSIZE)` can yield every square (x, y) |
| Yavalath.State.Result | games/yavalath.h:114-118 | `result(c)` is the outcome of the stored winner for c |
| Yavalath.State.Place | games/yavalath.h:109-112 | `place` on an empty cell sets that one cell to c and nothing else |
| Yavalath.State.Move | games/yavalath.h:182-193 | `move`: the side to move takes the cell, the winner is `complete` of that cell, the game ends when that is a player, and the turn passes |
| Yavalath.State.MovesFor | games/yavalath.h:215-223 | `moves(c, ml)` appends every empty cell of the board in row-major order |
| Yavalath.State.RowMoves | games/yavalath.h:217-222 | one row of `moves(c, ml)` appends that row's empty cells left to right, stopping at the first invalid column |
| Yavalath.State.Moves | games/yavalath.h:225-235 | `moves(ml)` does nothing once the game is over; otherwise it appends every empty cell and ends the game when the list is empty |
| Yavalath.State.RandomMove | games/yavalath.h:195-213 | `random_move` returns an empty cell of the board, and false only when the game was over or no cell is empty |
| Yavalath.State.ProbeEmpty | games/yavalath.h:197-206 | the probing loop returns only an empty cell of the board |
| Yavalath.State.ProbeOnce | games/yavalath.h:198-205 | one probe reports a hit only on an empty cell of the board |
| Yavalath.State.PickListed | games/yavalath.h:207-212 | the fallback of `random_move` picks from `moves`, so returns an empty cell, and false only when none is listed |
| Yavalath.State.FeatureAsWritten | games/yavalath.h:72-89 | `operator[](i)` as written answers, if at all, with the input of cell (0, 0), whatever i is |
| Yavalath.State.RoundAsWritten | games/yavalath.h:75-86 | in one round of the loop as written, only square 0 can answer |
| Yavalath.State.Feature | games/yavalath.h:72-89 | `operator[](i)` as meant: the input of the i-th valid cell in row-major order |
| Yavalath.State.FeatureRow | games/yavalath.h:75-86 | one row of the intended loop answers with the input of the i-th valid cell, or passes on the count of valid cells through that row |
| Yavalath.CellsAt | games/yavalath.h:75-87 | cell x of row y is entry (valid cells of earlier rows) + x of the listing of all cells |
| Yavalath.EmptiesFit | games/yavalath.h:215-223 | the cells listed up to row y and column x are no more than all empty cells |
| Yavalath.RowEmptiesGrow | games/yavalath.h:217-222 | a row's empty-cell listing only grows as the column bound moves right |
| Yavalath.EmptyRowsGrowTo | games/yavalath.h:216-222 | the listing only grows as more rows are taken |
| Tanbo.Towards | games/tanbo.h:172-199 | the neighbour in direction d, if `valid(d, i)`, is a cell of the board |
| Tanbo.Neighbours | games/tanbo.h:260-264 | the orthogonal neighbours N, S, E, W of a cell are cells of the board |
| Tanbo.SameCell | games/tanbo.h:175 | two indices with the same column and row are the same cell |
| Tanbo.StepBack | games/tanbo.h:189-199 | one orthogonal `move_dir` followed by the reverse one returns to the cell |
| Tanbo.NeighboursSymmetric | games/tanbo.h:260-264 | j is a neighbour of i exactly when i is one of j |
| Tanbo.ReachSelf | games/tanbo.h:283-301 | a stone reaches itself |
| Tanbo.ReachPrepend | games/tanbo.h:292-299 | a stone reaches whatever its same-coloured neighbour reaches |
| Tanbo.ReachSymmetric | games/tanbo.h:283-301 | connection within a colour is symmetric |
| Tanbo.ReachTransitive | games/tanbo.h:283-301 | connection within a colour is transitive |
| Tanbo.GroupOfMember | games/tanbo.h:283-301 | every stone of a group has the same group |
| Tanbo.GroupHasSelf | games/tanbo.h:283-301 | a stone is in its own group, and a group holds only stones of its colour |
| Tanbo.ExtensionOwner | games/tanbo.h:249-266 | an empty cell is a valid extension of at most one stone of a colour, since any other would be a second neighbour of that colour |
| Tanbo.ExtListExact | games/tanbo.h:268-281 | the cells `find_moves` may add for stone i are exactly its valid extensions, each once |
| Tanbo.TallyDone | games/tanbo.h:315-325 | at the end of `find`'s scan, the group count is the number of groups and the list holds every root once |
| Tanbo.DeadScanDone | games/tanbo.h:353-362 | at the end of `remove_dead`'s scan, the listed stones' groups are exactly the dead stones, one stone per group |
| Tanbo.DoomedDone | games/tanbo.h:353-362 | once every stone has been seen, the groups traced with no roots are exactly the dead ones |
| Tanbo.Cleared | games/tanbo.h:151-159 | removing a set of cells empties exactly those cells |
| Tanbo.ClearedTwice | games/tanbo.h:363-364 | removing one set of cells and then another removes their union |
| Tanbo.PlayedKeeps | games/tanbo.h:213-216 | a move keeps every cell not of the mover's colour apart from the one played, adds no other stone of the mover's, and leaves the played cell empty exactly when its stone is in a dead group |
| Tanbo.ReachAfterClear | games/tanbo.h:347-365 | removing dead groups does not cut a living group |
| Tanbo.NoDeadAfterClear | games/tanbo.h:347-365 | after `remove_dead` the colour it cleared has no dead group left |
| Tanbo.PopcountZero | games/tanbo.h:217-220 | a bitset's `count()` is 0 exactly when no bit is set |
| Tanbo.Start | games/tanbo.h:83-112 | the opening position covers the whole board |
| Tanbo.StartHasBoth | games/tanbo.h:83-112 | every opening position holds stones of both sides |
| Tanbo.LatticeAlternates | games/tanbo.h:104-111 | the lattice points of the opening alternate colour along a row |
| Tanbo.PaintDone | games/tanbo.h:104-111 | the opening loops paint exactly the lattice colouring of the board |
| Tanbo.MoveList.Clear | games/tanbo.h:46-49 | `clear` empties the list and zeroes the move |
| Tanbo.MoveList.Add | games/tanbo.h:51-53 | `add(i)` appends i and changes nothing else |
| Tanbo.State.Initial | games/tanbo.h:90-112 | `initial` resets the turn and sets the opening position of the board size |
| Tanbo.State.InitialRow | games/tanbo.h:106-110 | one row of the opening loop paints its lattice points in alternating colour |
| Tanbo.State.InitialPoint | games/tanbo.h:107-108 | one point of the opening loop places a stone of the current colour and flips it |
| Tanbo.State.Setup9x9 | games/tanbo.h:83-88 | `setup9x9` places the four stones of the 9x9 opening |
| Tanbo.State.Colors | games/tanbo.h:124-128 | the colour of each cell read from the two bitsets |
| Tanbo.State.Color | games/tanbo.h:124-128 | `color(i)` is Black when the black bit is set, else White when the white bit is, else none |
| Tanbo.State.Result | engine/state.h:24-28 | the inherited `result(c)`: the outcome of the stored winner for c |
| Tanbo.State.Feature | games/tanbo.h:114-118 | `s[i]` is 1.0 for a black cell, -1.0 for a white one and 0.0 for an empty one |
| Tanbo.State.ValidIndexIsEmpty | games/tanbo.h:80 | `valid_index(i)` holds exactly when cell i is empty |
| Tanbo.State.Place | games/tanbo.h:143-149 | `place(c, i)` sets bit i of c's bitset and nothing else |
| Tanbo.State.Remove | games/tanbo.h:151-159 | `remove(i)` empties an occupied cell and nothing else |
| Tanbo.State.CountZero | games/tanbo.h:217-220 | a side's bitset count is 0 exactly when the board holds none of its stones |
| Tanbo.State.Move | games/tanbo.h:213-228 | `move`: the mover's stone is placed, the mover's dead groups are removed, the game ends when one side has no stones, that side's opponent wins when exactly one side has none, and the turn passes |
| Tanbo.State.Moves | games/tanbo.h:370-379 | `moves` clears the list; a finished game lists nothing; otherwise it lists every root of the side to move once and ends the game when there are none |
| Tanbo.State.RandomMove | games/tanbo.h:230-237 | `random_move` succeeds exactly when the game is on and the side to move has a root, and then returns one of them |
| Tanbo.State.Score | games/tanbo.h:161-170 | `score` is Black's roots less White's, plus ten times Black's groups less White's |
| Tanbo.MoveFinder.Reset | games/tanbo.h:244-247 | `reset` clears `visited` and `occupied` and leaves `visited_remove` alone |
| Tanbo.MoveFinder.ValidMove | games/tanbo.h:249-266 | `valid_move(c, s, k, i)` holds exactly when no neighbour of k other than i holds c |
| Tanbo.MoveFinder.FindMoves | games/tanbo.h:268-281 | `find_moves` appends stone i's valid extensions not yet visited, each once, and marks them visited |
| Tanbo.MoveFinder.Trace | games/tanbo.h:283-301 | `trace` visits the stones of i's group not yet visited, counts them, and appends the roots of those stones |
| Tanbo.MoveFinder.Find | games/tanbo.h:315-325 | `find(c)` returns the number of c's groups and lists every root of c once |
| Tanbo.MoveFinder.FindCurrent | games/tanbo.h:303-313 | `find(s, ml)` does the same for the side to move |
| Tanbo.MoveFinder.RemoveGroup | games/tanbo.h:327-345 | `remove_group` removes the stones of i's group it reaches through cells not yet marked, and marks them |
| Tanbo.MoveFinder.RemoveDead | games/tanbo.h:347-365 | `remove_dead` empties exactly the dead groups of the side to move |
| Tanbo.MoveFinder.CollectDead | games/tanbo.h:353-362 | the scan of `remove_dead` collects one stone of each dead group |
| Tanbo.MoveFinder.RemoveAll | games/tanbo.h:363-364 | the removal loop empties the groups of the collected stones |
| Druid.SetMove | games/druid.h:18-31 | `Move::set` keeps the low four bits of each coordinate, reads back as a sarsen exactly when set as one, and keeps the direction |
| Druid.SameMoveOfSet | games/druid.h:56-61 | two moves compare equal exactly when coordinates and type agree and, for lintels, the direction too |
| Druid.SarsenDirectionIgnored | games/druid.h:56-61 | sarsens set with different directions compare equal though they differ bitwise |
| Druid.MoveList.Clear | games/druid.h:76 | `clear` empties the list |
| Druid.MoveList.AddSarsen | games/druid.h:79-82 | `addSarsen` below capacity appends a sarsen on (x, y) |
| Druid.MoveList.AddLintel | games/druid.h:84-87 | `addLintel` below capacity appends a lintel from (x, y) along d |
| Druid.Put | games/druid.h:137-138 | `Square::set` changes one cell of the grid and nothing else |
| Druid.Covered | games/druid.h:182-187 | the lintel loops set exactly the cells of the span rectangle |
| Druid.PlacedSarsen | games/druid.h:132-139 | a sarsen keeps the board well formed and its size |
| Druid.PlacedLintel | games/druid.h:178-188 | a lintel keeps the board well formed and its size |
| Druid.Placed | games/druid.h:200-210 | a playable move keeps the board well formed and its size |
| Druid.SarsenColumnExact | games/druid.h:221-227 | one column of `sarsenMoves` offers exactly the cells of the column below the bound that are empty or c's and lower than SIZE-2 |
| Druid.SarsensExact | games/druid.h:220-228 | `sarsenMoves` offers exactly the sarsens on cells, in the columns below the bound, that are empty or c's and lower than SIZE-2 |
| Druid.AtExact | games/druid.h:259-260 | the calls at one origin offer exactly the lintels from there, along the given directions, that pass `tryLintel`'s test |
| Druid.ColumnLintelsExact | games/druid.h:257-262 | one column of the loops offers exactly the passing lintels from its origins between the row bounds |
| Druid.BlockLintelsExact | games/druid.h:256-270 | a block of the loops offers exactly the passing lintels from its origins |
| Druid.LintelsExact | games/druid.h:256-271 | `lintelMoves` offers a lintel exactly when its span lies on the board and it passes `tryLintel`'s test |
| Druid.ColumnLintelsGrow | games/druid.h:258-261 | a column's offers only grow as its row bound moves down |
| Druid.BlockLintelsGrow | games/druid.h:257-262 | a block's offers only grow as its column bound moves right |
| Druid.LegalKeepsLow | games/druid.h:220-254 | no offered move lifts a cell to SIZE or beyond, so the `uint8_t` heights never wrap |
| Druid.SarsenKeepsLow | games/druid.h:224 | an offered sarsen keeps every height below SIZE |
| Druid.LintelKeepsLow | games/druid.h:241-245 | an offered lintel keeps every height below SIZE |
| Druid.LintelLandsLevel | games/druid.h:178-188 | every cell under a placed lintel ends one above the origin's height and in the mover's colour |
| Druid.WinBonus | games/druid.h:164-172 | the intended win term: +1 exactly for a finished Black win, -1 exactly for a finished White win, 0 otherwise |
| Druid.WhiteWinCountsForBlack | games/druid.h:164-172 | `wb - ww` as written is +1 for a White win as for a Black one, so a White win adds 1000 to Black's score where -1000 was meant |
| Druid.ScoreAntisymmetric | games/druid.h:170-172 | with the intended win term, swapping the colours negates the score |
| Druid.State.Current | games/druid.h:114 | the side to move is the opponent of the side that just played |
| Druid.State.Result | games/druid.h:141-145 | `result(c)` is the outcome of the stored winner for c |
| Druid.State.Clear | games/druid.h:125-130 | `clear` empties the board, Black to move, nobody winning, game on, no cached score |
| Druid.State.CopyFrom | games/druid.h:120-123 | `copy_from` copies the board and bookkeeping and drops the score cache |
| Druid.State.SetGameOver | games/druid.h:110 | `set_game_over` ends the game |
| Druid.State.PlaceSarsen | games/druid.h:132-139 | `placeSarsen` raises the cell by one and gives it c's colour |
| Druid.State.PlaceLintel | games/druid.h:178-188 | `placeLintel` sets every cell of the span to one above the origin's height and to c's colour |
| Druid.State.Paint | games/druid.h:182-187 | the nested loops paint the rectangle and nothing else |
| Druid.State.LintelColumn | games/druid.h:183-186 | the inner loop paints one column of the span and nothing else |
| Druid.State.Place | games/druid.h:203-210 | the switch of `move` places the sarsen or the lintel the move names |
| Druid.State.Move | games/druid.h:200-218 | `move` places the piece, makes the mover the winner and ends the game when the mover joins its two edges, passes the turn and leaves the score cache as it was |
| Druid.State.Settle | games/druid.h:212-217 | the connection test sets the winner and game-over flag, and the mover becomes the side that just played |
| Druid.State.Moves | games/druid.h:273-289 | `moves` does nothing once the game is over; otherwise it appends the sarsens then the lintels of the side to move and ends the game when the list is empty |
| Druid.State.RandomMove | games/druid.h:291-297 | `random_move` succeeds exactly when the game is on and a move exists, and then returns a legal move |
| Druid.State.Score | games/druid.h:147-176 | `score` returns the cache when set; otherwise the height balance, 20 per cell of longest-group lead and 1000 times the intended win term, and caches it |
| Druid.State.IsNumber | games/druid.h:349-353 | `is_number` holds exactly for a non-empty string of digits |
| Druid.SarsenMoves | games/druid.h:220-228 | `sarsenMoves` appends exactly the sarsen listing |
| Druid.SarsenColumnMoves | games/druid.h:222-226 | one column of `sarsenMoves` appends that column's sarsens |
| Druid.TryLintel | games/druid.h:230-254 | `tryLintel` appends the lintel exactly when it passes the test |
| Druid.TryAt | games/druid.h:259-260 | the calls at one origin append its lintels, in the order of the directions |
| Druid.LintelColumnMoves | games/druid.h:258-261 | the inner loop appends one column's lintels |
| Druid.ColumnCell | games/druid.h:259-260 | one round of the inner loop appends the lintels of one origin |
| Druid.LintelBlock | games/druid.h:257-270 | one nested loop appends its block's lintels |
| Druid.LintelMoves | games/druid.h:256-271 | `lintelMoves` appends exactly the lintel listing |
| Druid.EdgeMoves | games/druid.h:264-270 | the two edge loops append the lintels of the last two rows and columns |
| Druid.Measure | games/druid.h:151-172 | the uncached part of `score`: height balance, longest groups and intended win term |
| Druid.ColumnWeights | games/druid.h:153-159 | the inner loop sums the heights of Black's and White's cells in one column |
| Druid.Weights | games/druid.h:151-160 | the nested loops sum the heights of Black's and White's cells |
| Druid.ParseMoveTokens | games/druid.h:355-392 | parsing the tokens of a move gives that move back |
| Druid.ParseMoveAccepts | games/druid.h:355-392 | `parse_move` accepts exactly three or more tokens with numeric x and y and an 's', or an 'l' with a fourth token starting with 'x' or 'y' |
| DruidHex.DirOf | games/druidhex.h:171-178 | `dir()` decodes the codes 1, 2 and 3 to EAST, SE and SW |
| DruidHex.Code | games/druidhex.h:184-189 | `set` encodes EAST, SE and SW as 1, 2 and 3 |
| DruidHex.DirOfCode | games/druidhex.h:171-189 | decoding the code of a direction gives the direction back |
| DruidHex.CodeOfDir | games/druidhex.h:171-189 | encoding a decoded code gives the code back |
| DruidHex.SetMove | games/druidhex.h:180-190 | `Move::set` keeps the low four bits of each coordinate, the type and the direction |
| DruidHex.SameMoveOfSet | games/druidhex.h:215-220 | two moves compare equal exactly when coordinates and type agree and, for lintels, the direction too |
| DruidHex.MoveList.Clear | games/druidhex.h:239 | `clear` empties the list |
| DruidHex.MoveList.AddSarsen | games/druidhex.h:242-245 | `addSarsen` below capacity appends a sarsen on (x, y) |
| DruidHex.MoveList.AddLintel | games/druidhex.h:247-250 | `addLintel` below capacity appends a lintel from (x, y) along d |
| DruidHex.Next | games/druidhex.h:407-411 | `move` along a direction keeps a valid cell valid |
| DruidHex.Trail | games/druidhex.h:407-411 | the k-th cell of a lintel's trail is valid |
| DruidHex.Lay | games/druidhex.h:402-411 | laying a value along a trail keeps the hex grid's shape |
| DruidHex.LayCells | games/druidhex.h:407-411 | laying along a trail sets exactly the trail's first k cells |
| DruidHex.LayStep | games/druidhex.h:407-411 | one more round of the loop moves one step along the trail and sets one more cell |
| DruidHex.PlacedSarsen | games/druidhex.h:345-359 | a sarsen keeps the board well formed and its size |
| DruidHex.PlacedLintel | games/druidhex.h:402-420 | a lintel keeps the board well formed and its size |
| DruidHex.Placed | games/druidhex.h:439-449 | a playable move keeps the board well formed and its size |
| DruidHex.RowSarsensExact | games/druidhex.h:474-481 | one row of `sarsenMoves` offers exactly the valid cells left of the bound that are empty or c's and lower than SIZE-2 |
| DruidHex.SarsensExact | games/druidhex.h:465-483 | `sarsenMoves` offers exactly the valid cells, in the rows below the bound, that are empty or c's and lower than SIZE-2 |
| DruidHex.LintelDir | games/druidhex.h:533-535 | the k-th `tryLintel` call at an origin tries the direction of code k + 1 |
| DruidHex.Rows | games/druidhex.h:528 | the rows `lintelMoves` visits lie on the board |
| DruidHex.TryOneExact | games/druidhex.h:485-516 | `tryLintel` offers the lintel from (x, y) along d exactly when it passes the rule's board test and the height and support test |
| DruidHex.TryFromSplit | games/druidhex.h:533-535 | the calls from the k-th on are the k-th call then the rest |
| DruidHex.AtSplit | games/druidhex.h:533-535 | the calls at an origin are EAST, then SE, then SW |
| DruidHex.CallsFromExact | games/druidhex.h:533-535 | the calls from the k-th on offer exactly the passing lintels from the origin with a direction code above k |
| DruidHex.AtExact | games/druidhex.h:533-535 | the calls at an origin offer exactly its passing lintels |
| DruidHex.CallsFromCell | games/druidhex.h:533-535 | every lintel the calls at an origin offer starts there |
| DruidHex.GatherIn | games/druidhex.h:528-537 | a move that only one origin can offer is in the listing of the first k origins exactly when that origin is among them and offers it |
| DruidHex.GatherGrow | games/druidhex.h:528-537 | the listing only grows with more origins |
| DruidHex.AtOwnCell | games/druidhex.h:533-535 | within a row, only the origin of a lintel can offer it |
| DruidHex.BlockLintelsIn | games/druidhex.h:528-537 | the first k rows offer a lintel exactly when its origin lies in them, before the row's end under the rule, and passes |
| DruidHex.LintelsAsWritten | games/druidhex.h:518-538 | `lintelMoves` as written offers exactly the lintels whose origin has both coordinates below SIZE and that pass the written test, including the far-end `has_move` |
| DruidHex.LintelsIntended | games/druidhex.h:518-538 | the intended `lintelMoves` offers exactly the lintels whose three cells lie on the board and that pass the height and support test |
| DruidHex.Ledges | games/druidhex.h:485-516 | the example board is a well-formed board of size 3 |
| DruidHex.FarEndRefused | games/druidhex.h:489-496 | on the example board, a legal lintel ending on the board edge is offered as intended but refused as written, because its far end has no further move |
| DruidHex.LowerRowRefused | games/druidhex.h:528-529 | on the example board, a lintel from row 3, which passes the written test, is offered as intended but never tried as written, since the loop stops at row SIZE |
| DruidHex.LedgeLintel | games/druidhex.h:485-516 | the example lintels span the board and pass the height and support test |
| DruidHex.LintelLandsLevel | games/druidhex.h:402-411 | an offered lintel covers three distinct cells, each ending one above the origin's height and in the mover's colour |
| DruidHex.TrailDistinct | games/druidhex.h:407-411 | the three cells of a lintel are distinct |
| DruidHex.LegalKeepsLow | games/druidhex.h:465-538 | no offered move lifts a cell to SIZE or beyond, so the `uint8_t` heights never wrap |
| DruidHex.SarsenKeepsLow | games/druidhex.h:479 | an offered sarsen keeps every height below SIZE |
| DruidHex.LintelKeepsLow | games/druidhex.h:503-507 | an offered lintel keeps every height below SIZE |
| DruidHex.PointValid | games/druidhex.h:42-64 | every perimeter point is a valid cell |
| DruidHex.PointStep | games/druidhex.h:56-60 | the walk of `populate_points` can move along the side's direction and reaches the next point |
| DruidHex.CornersMeet | games/druidhex.h:54-63 | the last point of a side is the first of the next |
| DruidHex.PopulatePoints | games/druidhex.h:42-64 | `populate_points` fills `points` with the six sides of the perimeter, SIZE points each |
| DruidHex.WalkSide | games/druidhex.h:55-62 | the inner loop records one side and ends on its last point |
| DruidHex.GoalSide | games/druidhex.h:87-92 | `mark_edge` checks the sides C, E (ACE) or D, F (BDF) |
| DruidHex.EdgeNum | games/druidhex.h:70-77 | `edge_num` maps sides C, D to 0 and E, F to 1 |
| DruidHex.GoalEdges | games/druidhex.h:70-92 | each target's two goal sides get the two edge flags, and share the parity of its start side |
| DruidHex.HexPathFinder.MarkEdge2 | games/druidhex.h:79-85 | `mark_edge2` sets side i's edge flag when p lies on side i, and nothing else |
| DruidHex.HexPathFinder.MarkEdge | games/druidhex.h:87-92 | `mark_edge` sets each edge flag whose goal side holds (x, y) |
| DruidHex.HexPathFinder.Scan | games/druidhex.h:101-121 | `scan` visits cells reached from (x, y) through its colour and, unless a connection is found, all of them |
| DruidHex.HexPathFinder.Explore | games/druidhex.h:107-120 | the direction loop of `scan` visits the cells reached from a neighbour of c |
| DruidHex.HexPathFinder.Visit | games/druidhex.h:110-119 | one direction of the loop follows an unseen neighbour of the colour |
| DruidHex.HexPathFinder.Search | games/druidhex.h:123-137 | `search(t)` holds exactly when the cells of the colour reached from t's start side touch both goal sides |
| DruidHex.HexPathFinder.StartAt | games/druidhex.h:128-135 | one round of the search scans from the i-th start point when it holds the colour |
| DruidHex.HexPathFinder.Connected | games/druidhex.h:139-143 | `connected(c, m)` holds exactly when either target is joined |
| DruidHex.NextIsNeighbour | games/druidhex.h:109-113 | a step in one of the six directions reaches a neighbour |
| DruidHex.EnclosedBySix | games/druidhex.h:109-120 | when the six neighbours of the colour are seen, the cell is enclosed |
| DruidHex.ReachSelf | games/druidhex.h:101-121 | a cell of the colour reaches itself |
| DruidHex.ReachPrepend | games/druidhex.h:110-118 | a cell of the colour reaches what its neighbour reaches |
| DruidHex.SeenAdd | games/druidhex.h:79-92 | seeing one more cell sees a side exactly when it was seen or the cell lies on it |
| DruidHex.ClosedGrow | games/druidhex.h:101-121 | closure of the visited set composes across successive scans |
| DruidHex.FoundJoins | games/druidhex.h:123-137 | cells reached from the start side that cover both goal sides make the target joined |
| DruidHex.PathStaysIn | games/druidhex.h:101-121 | a path of the colour from a closed visited set stays in it |
| DruidHex.NoJoin | games/druidhex.h:123-137 | a closed visited set that covers the start side but misses a goal side shows the target is not joined |
| DruidHex.SarsenMoves | games/druidhex.h:465-483 | `sarsenMoves` appends exactly the sarsen listing |
| DruidHex.RowSarsenMoves | games/druidhex.h:474-481 | one row of `sarsenMoves` appends that row's sarsens |
| DruidHex.TryLintel | games/druidhex.h:485-516 | `tryLintel` appends the lintel exactly when it passes under the rule |
| DruidHex.TryAt | games/druidhex.h:533-535 | the three calls at an origin append its lintels |
| DruidHex.LintelMoves | games/druidhex.h:518-538 | `lintelMoves` appends exactly the lintel listing of the rule |
| DruidHex.RowLintelMoves | games/druidhex.h:529-536 | one row of `lintelMoves` appends that row's lintels |
| DruidHex.LintelCell | games/druidhex.h:530-535 | one origin of the inner loop appends its lintels |
| DruidHex.RowDone | games/druidhex.h:529-531 | the inner loop stops exactly at the row's end under the rule |
| DruidHex.State.Current | games/druidhex.h:317 | the side to move is a player other than the one that just played |
| DruidHex.State.Result | games/druidhex.h:361-365 | `result(c)` is the outcome of the stored winner for c |
| DruidHex.State.Clear | games/druidhex.h:330-343 | `clear` empties the board, Black to move, nobody winning, game on |
| DruidHex.State.CopyFrom | games/druidhex.h:323-328 | `copy_from` copies the board and the bookkeeping |
| DruidHex.State.SetGameOver | games/druidhex.h:315 | `set_game_over` ends the game |
| DruidHex.State.PlaceSarsen | games/druidhex.h:345-359 | `placeSarsen` raises the cell by one and gives it c's colour |
| DruidHex.State.PlaceLintel | games/druidhex.h:402-420 | `placeLintel` sets the three trail cells to one above the origin's height and c's colour |
| DruidHex.State.LayCell | games/druidhex.h:407-411 | one round of the lintel loop sets one trail cell and steps along |
| DruidHex.State.Place | games/druidhex.h:442-449 | the switch of `move` places the sarsen or the lintel the move names |
| DruidHex.State.Move | games/druidhex.h:439-463 | `move` places the piece, makes the mover the winner and ends the game when the mover is connected, and passes the turn |
| DruidHex.State.Settle | games/druidhex.h:451-462 | the connection test sets the winner and game-over flag, and the mover becomes the side that just played |
| DruidHex.State.Moves | games/druidhex.h:540-556 | `moves` does nothing once the game is over; otherwise it appends the sarsens then the intended lintels of the side to move and ends the game when the list is empty |
| DruidHex.State.RandomMove | games/druidhex.h:558-565 | `random_move` succeeds exactly when the game is on and a move exists, and then returns a legal move |
| Congo.MovesTo | games/congo2.h:70-76 | `_add` appends one move per target, from square k by colour c, a capture exactly when the target is occupied in bb |
| Congo.TargetsAreBits | games/congo2.h:78-85 | the targets `add` visits are exactly the set bits of d |
| Congo.TargetsFromBits | games/congo2.h:78-85 | the targets from bit k upwards are exactly the set bits at or above k |
| Congo.TargetsIncrease | games/congo2.h:78-85 | `add` visits the targets lowest first, each once, in strictly increasing order |
| Congo.TargetsCount | games/congo2.h:78-85 | `add` appends as many moves as d has set bits |
| Congo.Peel | games/congo2.h:80-83 | clearing the lowest set bit leaves the targets after it: one step of the `n & (~n+1)` loop |
| Congo.MovesToMember | games/congo2.h:70-85 | a move is in the list `add` appends exactly when it starts at k, has colour c, ends on a target and is a capture exactly when that target is occupied |
| Congo.Isolate | games/congo2.h:81-83 | `j = n & (~n+1)` isolates the lowest set bit, `log2(j)` is its position, and `n ^= j` clears it and lowers the popcount |
| Congo.Lowest | games/congo2.h:81-83 | one round of the loop yields the first target and leaves the remaining ones |
| Congo.IsCapture | games/congo2.h:74 | `(bb & (1 << b)) > 0` holds exactly when bit b of bb is set |
| Congo.IsolateFacts | games/congo2.h:81-83 | for n whose lowest set bit is r, `n & (~n+1)` is the single bit r and `n ^` it clears bit r |
| Congo.MoveList.Clear | games/congo2.h:66 | `clear` empties the list |
| Congo.MoveList.Add | games/congo2.h:78-85 | `add` appends, lowest target first, one move from k to each set bit of d, marked as a capture when the target is occupied |
| Congo.MoveList.AddLowest | games/congo2.h:80-83 | one iteration appends the move to the lowest target and leaves the moves still to come for the rest |
| Congo.Around | games/congo2.h:99-156 | the generators' squares are the origin shifted by each step, in order |
| Congo.AdjacentAround | games/congo2.h:99-103 | `gen_adjacent` lists exactly the eight neighbours of (x, y) |
| Congo.AdjacentExactly | games/congo2.h:211-218 | `ADJACENT_MOVES` of an on-board square holds exactly the on-board neighbours |
| Congo.SetAllBits | games/congo2.h:99-156 | `try_set` on a list of squares sets exactly the on-board squares listed, keeping the bits already set |
| Congo.TrySetBitAt | games/congo2.h:99-156 | one `try_set` sets the on-board square it names and no other |
| Congo.SetAllOnBoard | games/congo2.h:99-156 | `try_set` never touches a bit of `INVALID` |
| Congo.EntryOnBoard | games/congo2.h:203-250 | no table entry `populate` stores has a bit in column 7 or row 7 |
| Congo.LionMoves | games/congo2.h:223-226 | a lion's table entry lies inside its castle and is empty for a square outside the castle |
| Congo.Tables | games/congo2.h:203-250 | `populate` fills one entry for each of the `NUM_POSITIONS` squares |
| Congo.LeftSquares | games/congo2.h:170-174 | the leftward slide of `gen_croc` visits the squares of the row strictly right of the stop column, up to the start |
| Congo.RightSquares | games/congo2.h:175-179 | the rightward slide visits the squares of the row from the start up to column 6 |
| Congo.DownColumn | games/congo2.h:159-163 | the slide towards the river from above stays in the crocodile's column |
| Congo.UpColumn | games/congo2.h:164-168 | the slide towards the river from below stays in the crocodile's column |
| Congo.CrocRiverSquares | games/congo2.h:158-181 | a crocodile in the river reaches another river square exactly when it lies between the stop column and x, or right of x |
| Congo.CrocRiver | games/congo2.h:158-181 | the croc entry for a river square has the bit of another river square exactly when that square lies in one of the two slides |
| Congo.CrocAsWrittenMissesColumnZero | games/congo2.h:170-174 | as written, `while (tx > 0)` keeps a crocodile in the river from reaching column 0, though it reaches column 6 |
| Congo.CrocReachesRiver | games/congo2.h:158-181 | with the slide running to column 0, a crocodile in the river reaches every other river square |
| Congo.SightBetween | games/congo2.h:183-200 | `LION_SIGHT[b][w]` holds exactly the squares strictly between the two lions on the column or diagonal they share |
| Congo.SightSquare | games/congo2.h:183-200 | the same, stated for any bit index of the entry |
| Congo.SightOnColumn | games/congo2.h:190-192 | two lions on one column see each other across exactly the squares between them |
| Congo.SightOffColumn | games/congo2.h:193-194 | two lions on different columns see each other only across the centre square, from opposite corners of a castle diagonal |
| Congo.SightCorners | games/congo2.h:193-194 | for lions on different columns, the pairs (6, 2) and (8, 0) are exactly the ones on a shared diagonal |
| Congo.SightNonzero | games/congo2.h:183-200 | an entry is nonzero exactly when the two lions share a column or a diagonal |
| CongoState.MaskBit | games/congo2.h:286-298 | a board derived from the colours and pieces has bit i exactly when square i holds what the board selects |
| CongoState.MaskEmpty | games/congo2.h:286-298 | a derived board is zero exactly when no square holds what it selects |
| CongoState.Partition | games/congo2.h:337-371 | `occupied` is the union of `occupied_black` and `occupied_white`, and the two never share a square |
| CongoState.WriteBits | games/congo2.h:337-371 | writing colour c and piece p on square i changes bit i of each board to whether it selects (c, p) and no other bit |
| CongoState.Rows | games/congo2.h:22-24 | `BLACK_PROMOTE`, `WHITE_PROMOTE` and `RIVER` are rows 6, 0 and 3 of the board |
| CongoState.Castles | games/congo2.h:25-26 | `BLACK_CASTLE` and `WHITE_CASTLE` are columns 2 to 4 of rows 0 to 2 and 4 to 6 |
| CongoState.LionBoard | games/congo2.h:328 | a side's lion board is zero exactly when that side has no lion on the board |
| CongoState.BothLions | games/congo2.h:328 | with a black and a white lion on the board, both sides have a lion |
| CongoState.State.ColorAt | games/congo2.h:373-376 | `color(i)` is the owner of square i, and NONE off the board |
| CongoState.State.Place | games/congo2.h:337-354 | `place` on an empty square writes c and p there, keeps the boards consistent and records a lion's square |
| CongoState.State.Remove | games/congo2.h:356-371 | `remove` empties the square it names and keeps the boards consistent |
| CongoState.State.PromoteSide | games/congo2.h:378-388 | `promote(c, promo, data)` turns every pawn of c on the promotion row into a superpawn and changes nothing else |
| CongoState.State.Promote | games/congo2.h:390-393 | `promote()` leaves the pieces `Promoted` gives: pawns on their far row become superpawns, every other square keeps its piece |
| CongoState.PromoteBit | games/congo2.h:379 | `data & promo` has bit j exactly when j is on the promotion row and holds a pawn of c |
| CongoState.PromotedBoth | games/congo2.h:390-393 | promoting Black then White yields `Promoted` of the starting pieces |
| CongoState.State.Drown | games/congo2.h:395-411 | `drown(played)` removes exactly the pieces `DrownedOwners`/`DrownedPieces` say and snapshots the river afterwards |
| CongoState.NothingDrowns | games/congo2.h:400 | when neither side's river snapshot meets its pieces in the river, `drown` changes nothing |
| CongoState.DrownsGuarded | games/congo2.h:400-406 | every piece `drown` removes is one its guard lets through |
| CongoState.DrownsMeaning | games/congo2.h:395-411 | against the snapshot of the board before the move, a piece drowns exactly when it is a non-crocodile of the side that moved, in the river, and it was the same piece of that side on that square before |
| CongoState.DrownedAll | games/congo2.h:401-408 | seven rounds of the loop leave exactly `DrownedOwners` and `DrownedPieces` |
| CongoState.State.Move | games/congo2.h:437-450 | `move` captures on b, moves the piece from a to b, promotes, drowns, updates the winner by the lions left and sets `just_played` to the mover |
| CongoState.MoveVacates | games/congo2.h:437-450 | after a move the square moved from is empty |
| CongoState.MoveLands | games/congo2.h:437-450 | after a move the target holds the mover's piece, a superpawn when a pawn reaches its far row, unless it drowned |
| CongoState.MoveKeeps | games/congo2.h:437-450 | after a move every other square keeps its piece unless it drowned |
| CongoState.MoveLeavesNoPendingPawn | games/congo2.h:437-450 | after a move no pawn is left on its far row |
| CongoState.State.Capture | games/congo2.h:441-443 | a capture empties square b whatever stood there |
| CongoState.State.CheckWinCond | games/congo2.h:413-416 | `check_win_cond` makes White the winner when Black has no lion, else Black when White has none, else leaves the winner |
| CongoState.State.GameOver | games/congo2.h:328 | the game is over exactly when a side has no lion |
| CongoState.State.Result | games/congo2.h:575-579 | `result(c)` is 1 for the winner, 0 for the loser and 0.5 otherwise |
| CongoState.State.CopyRiver | games/congo2.h:331-335 | `copy_river` snapshots row 3 of `square` and the two sides' river bits |
| CongoState.State.Clear | games/congo2.h:317 | `clear` empties the board and zeroes every field |
| CongoState.State.Initial | games/congo2.h:593-618 | `initial` lays out the starting position, both lions on the board, winner NONE and White as the side that just played |
| CongoState.State.constructor | games/congo2.h:321-324 | `State()` is `clear` followed by `initial` |
| CongoState.State.PlaceBackRow | games/congo2.h:595-617 | the back row loop places giraffe, monkey, elephant, lion, elephant, crocodile, zebra and records the lion |
| CongoState.State.Pawns | games/congo2.h:603-606 | the pawn loops fill rows 1 and 5 with pawns of Black and White |
| CongoState.SetupMirrored | games/congo2.h:593-618 | the starting position is symmetric: the mirrored square holds the same piece of the other side |
| CongoState.SetupLions | games/congo2.h:598-614 | the lions start on squares 3 and 51, each inside its own castle |
| CongoState.State.LionSight | games/congo2.h:452-463 | `lion_sight(c)` is the other side's lion board when the lions face each other across empty squares, and 0 otherwise |
| CongoState.SightAligned | games/congo2.h:452-459 | for lions inside their castles the sight entry is nonzero exactly when they share a column or diagonal |
| CongoState.SightFree | games/congo2.h:459-461 | the entry is free of pieces exactly when every square between the lions is empty |
| CongoState.FacingMeans | games/congo2.h:452-463 | two lions in their castles face each other exactly when they are aligned and every square between them is empty |
| CongoState.Unblocked | games/congo2.h:460-504 | the test `p == (~occupied & p)` holds exactly when no square of p is occupied |
| CongoState.ClearPath | games/congo2.h:460-504 | no bit of p in `occupied` exactly when every square of p is empty |
| CongoState.PieceMovesBits | games/congo2.h:465-535 | `moves(c, i)` has bit j exactly when the piece on i reaches j by its table, its blocked slides and retreats dropped |
| CongoState.WordMeaning | games/congo2.h:465-535 | the move word read off the occupied board agrees with the reach read off the squares |
| CongoState.MoveWordBit | games/congo2.h:465-535 | bit j of the move word of each piece kind, read off its tables and the occupied board |
| CongoState.SlideBits | games/congo2.h:488-491 | a slide or retreat table counts only when none of its squares is occupied |
| CongoState.MoveWords | games/congo2.h:465-535 | the move word of every square is `moves(c, i)` for the piece on it |
| CongoState.State.Moves | games/congo2.h:546-557 | `moves(l, c)` appends, square by square from the lowest, the moves of c's pieces to targets not held by c |
| CongoState.ListedMoves | games/congo2.h:546-557 | a move is listed exactly when it starts on a piece of c, reaches its target by the tables, the target is not c's own, and it is a capture exactly when the target is occupied |
| CongoState.State.CurrentMoves | games/congo2.h:559-562 | `moves(ml)` lists the moves of the side to play |
| Gonnect.Pack | games/gonnect.h:16-20 | `Move::set` packs an 8-bit column and an 8-bit row into one 16-bit word |
| Gonnect.PackRoundTrip | games/gonnect.h:13-20 | `x()` and `y()` read back the column and row that `set` stored |
| Gonnect.UnpackRoundTrip | games/gonnect.h:13-20 | every 16-bit move word is `set` from its own `x()` and `y()` |
| Gonnect.SameMoveIsEquality | games/gonnect.h:29-32 | `operator==` on column and row holds exactly when the two words are equal |
| Gonnect.MoveList.Clear | games/gonnect.h:46 | `clear` empties the list |
| Gonnect.MoveList.Add | games/gonnect.h:48-51 | `add` under its assertion `count + 2 < MAX_MOVES` appends the move (x, y) |
| Gonnect.CountAfterAddsWraps | games/gonnect.h:43-50 | the `uint8_t` count as written holds the number of adds modulo 256 |
| Gonnect.EmptySixteenBoardLooksFinished | games/gonnect.h:43-51 | on an empty 16 by 16 board every add passes the assertion, yet the count wraps to 0 after the 256th, so `moves` declares a fresh game over |
| Gonnect.EmptyBoard | games/gonnect.h:79-83 | `clear` leaves every cell NONE on a board of the declared shape |
| Gonnect.ColumnOpenExact | games/gonnect.h:141-143 | the inner loop lists exactly the empty cells of column x |
| Gonnect.OpenExact | games/gonnect.h:139-144 | `moves(c, ml)` lists exactly the empty cells of the board |
| Gonnect.OpenSorted | games/gonnect.h:139-144 | the cells are listed column by column, in increasing order of their move words |
| Gonnect.OpenLength | games/gonnect.h:139-144 | no more moves are listed than the board has cells |
| Gonnect.EmptyBoardOpen | games/gonnect.h:139-144 | on a cleared board every cell is listed |
| Gonnect.State.Result | games/gonnect.h:110-114 | `result(c)` is 1 for the winner, 0 for the loser and 0.5 otherwise |
| Gonnect.State.constructor | games/gonnect.h:71 | `State()` is a cleared state |
| Gonnect.State.Clear | games/gonnect.h:79-83 | `clear` empties the board, sets no winner, White as the side that just played, and the game not over |
| Gonnect.State.CopyFrom | games/gonnect.h:75-77 | `copy_from` copies the board, winner, last player and game-over flag |
| Gonnect.State.SetGameOver | games/gonnect.h:68 | `set_game_over` raises the flag and changes nothing else |
| Gonnect.State.MovesFor | games/gonnect.h:139-144 | `moves(c, ml)` appends every empty cell, whatever the colour |
| Gonnect.State.Moves | games/gonnect.h:146-156 | `moves(ml)` adds nothing once the game is over, otherwise appends the empty cells and ends the game when the list is still empty |
| Gonnect.MovesFromCleared | games/gonnect.h:146-156 | from a cleared list the game ends exactly when no cell is empty |
| Breakthrough.FirstFrom | games/breakthrough.h:173-193 | the scan from bit k stops at the first set bit at or above k, or at 64 when there is none |
| Breakthrough.ShiftedStep | games/breakthrough.h:181-192 | each `temp = temp >> 1` halves what the earlier shifts left |
| Breakthrough.ScanFirst | games/breakthrough.h:173-182 | the first loop stops on the lowest set bit of the move, with `temp` shifted that far |
| Breakthrough.ScanNext | games/breakthrough.h:183-193 | the second loop, after the extra shift, stops on the next set bit above the first |
| Breakthrough.FindSquares | games/breakthrough.h:166-193 | the two loops find the two squares of the move, lowest first |
| Breakthrough.SpanSquares | games/breakthrough.h:166-193 | for a move word with exactly the bits lo < hi set, the loops find lo and hi |
| Breakthrough.ColumnChar | games/breakthrough.h:177-188 | a square's column letter is one of 'a' to 'h' |
| Breakthrough.Label | games/breakthrough.h:177-189 | a square is written as its column letter and its 1-based row digit, two characters |
| Breakthrough.LabelNames | games/breakthrough.h:177-189 | two squares of the board with the same label are the same square |
| Breakthrough.MoveToString | games/breakthrough.h:163-214 | `moveToString` writes the two squares with 'x' for a capture and '-' otherwise, White's move low square first and Black's high square first |
| Breakthrough.SpanString | games/breakthrough.h:194-212 | for a move from lo to hi the string is the labels of lo and hi around the separator, in the mover's order |
| Breakthrough.MoveStringNamesMove | games/breakthrough.h:163-214 | two moves rendered to the same string for the same turn and capture flag join the same two squares |
| Breakthrough.MoveToPlayString | games/breakthrough.h:219-261 | `moveToPlayString` writes the two squares in the mover's order with no separator |
| Breakthrough.PlayStringDropsSeparator | games/breakthrough.h:219-261 | the play string is the move string with the separator taken out |
| Breakthrough.BoardToBitString | games/breakthrough.h:262-277 | `boardToBitString` writes one '0' or '1' per bit for the low 63 bits, lowest first |
| Breakthrough.BitLoop | games/breakthrough.h:267-275 | the loop writes one character per bit for the first len bits |
| Breakthrough.LastSquareHidden | games/breakthrough.h:267 | as written, two boards that differ only on square 63 get the same bit string |
| Breakthrough.FullBitString | games/breakthrough.h:262-277 | the rendering over all 64 bits |
| Breakthrough.FullBitStringInjective | games/breakthrough.h:262-277 | over all 64 bits, boards with the same bit string are equal |
| Breakthrough.Winner | games/breakthrough.h:125-131 | `winner()` is White exactly for the white-wins code and Black exactly for the black-wins code |
| Breakthrough.Result | games/breakthrough.h:110-123 | `result(c)` of a decided game is 1 for the winner and 0 for the loser, and 0.5 otherwise |
| Breakthrough.Current | games/breakthrough.h:133-139 | `current()` is White exactly for the white-pawn turn and Black exactly for the black-pawn turn |
| Breakthrough.WinnerOnlyWhenOver | games/breakthrough.h:125-131 | a game with a winner is over, and an unfinished game has none |
| Breakthrough.BTState.CopyFrom | games/breakthrough.h:70-74 | `copy_from` copies the two boards and the turn and keeps this state's history |
| Breakthrough.BTState.SetGameOver | games/breakthrough.h:141-143 | `set_game_over` sets the turn to the draw code, so nobody is to move |
| Tetris.PieceOf | games/tetris.h:7 | each code from 0 to 7 names the piece declared in that position |
| Tetris.RandPiece | games/tetris.h:24 | `rand_piece` is the piece with code `1 + random() % T` |
| Tetris.RandPieceRange | games/tetris.h:24 | a drawn piece is never `Empty` and never `Z`, since `T` is 6 |
| Tetris.RandPieceReaches | games/tetris.h:24 | every piece from `I` to `T` can be drawn |
| Tetris.Rotations | games/tetris.h:39-48 | `rotations` is 0 for `Empty`, 1 for `O`, 2 for `I` and 4 for the others |
| Tetris.RotationsDivideFour | games/tetris.h:39-48 | every real piece's rotation count divides four |
| Tetris.NewGame | games/tetris.h:14-22 | the constructor keeps the size, zeroes score and pile height, draws both pieces and fills a w by h matrix with `Empty` |
| Tetris.NewGamePieces | games/tetris.h:14-24 | a new game never starts with `Empty` or `Z`, and both of its pieces have rotations |

## Left out

- Concurrency. `engine/thread.h` (the task pool, the spin lock and the threads) is not part of this model. The parallel drivers run their tasks one after another: `BasicMinimax::async_search`, the UCT and Monte-Carlo tasks, and `next`. Lock regions then have no effect.
- Strategy.BasicMinimax.AsyncSearch: reads the task scores in the order the tasks were pushed. The source reads each task's result once the pool has run it, so nothing fixes the order in which results arrive; when two moves tie, the source's choice is not pinned down and the model's is.
- Floating point. The `float` results, wins and scores of the search, UCT and Monte-Carlo code are `real` values, so rounding is not modelled. The results 0, 0.5 and 1 are exact in both.
- Uct.Player.NodeSelect: the UCB1 formula with `sqrt` and `log` is a function parameter `ucb`, and the exploration constant `Cp` is a parameter too. The contract states that the child picked is the first with the strictly highest `ucb` score above INT_MIN among its siblings (Uct.PickAmong). Nothing is proved about UCB1 itself.
- Unbounded loops take a bound, and nothing is claimed about what happens after it runs out:
  - GameLoop.Run and GameLoop.Game.Play: a game is played for at most `fuel` turns, where the source loops until the state says the game is over;
  - Uct.Player.Rollout, Uct.Player.Playout, Uct.Player.Iterate, Uct.Player.Task and Uct.Player.Next: a random playout is bounded by `fuel` moves;
  - MonteCarlo.Player.Walk, MonteCarlo.Player.Play, MonteCarlo.Player.Task and MonteCarlo.Player.Next: a random playout is bounded by `fuel` moves.
- Randomness. `random()` is a nondeterministic choice in methods and a parameter in functions. This covers the random player, the random moves of every game, Tetris's piece draw and the UCT and Monte-Carlo playouts. No distribution is modelled.
- Output. Logging, `print`, `display`, `announce`, `str`, `repr`, `move_str`, `debugMove` and the UI are not modelled. Neither is `engine/human.h`, which reads moves from standard input. The move-string helpers of Breakthrough are the exception, because the source uses them as move encodings.
- MonteCarlo.Player.constructor: the source leaves `result[]` uninitialised; the model allocates a fresh array and states nothing about its first contents. The contracts state only how each playout changes it.
- Sort.IndexSort.Sort, Sort.IndexSort.RSort and Sort.IndexSort.SortBy: `std::sort` is modelled by an insertion sort. The contracts promise only what `std::sort` promises: the entries end up in order and are a permutation of the old ones. Stability is not promised.
- Negascout.PvsAsWritten: the order in which the children are tried is a parameter, standing for the `IndexSort` of their static scores. Negascout.Pvs sorts for real.
- Search: `SquarePathFinder::liberties` passes a colour array where `clear` takes a board, so it would not compile once instantiated. Search.PathFinder.Liberties clears with the colour of the start cell, which is what the call evidently means.
- The broken `board::Y` row helper and `HexPathFinder::clear`, a `memset` on an object, are not modelled.
- Gonnect: `place`, `move`, `remove_dead`, `remove_group` and `score` name members that do not exist (`path_finder`, `path2`) or lack a return, so they do not compile. `ipow` serves only them.
- Games whose `score` is the constant 0 have no Score member: Connect-4, Connect-6 and Yavalath, and Druid-hex, whose `USE_SCORE` is off. Druid-hex's `COUNT_PIECES` switch is also off, so no piece counts are kept.
- The global `HIGHEST` logging counters of Druid and Druid-hex are not modelled.
- Breakthrough: `getMoves`, `make`, `isTerminal` and the other methods defined in the separate `.cc` file are not part of this model, and `isTerminal`'s result is a parameter. `random_move` is left out because it rests on `getMoves`, and `getPieceName` prints a piece. `moveToBitString` is `boardToBitString` applied to the move word, so Breakthrough.BoardToBitString covers it.
- Tetris: `set_color` is left out. It fills a matrix that only the renderer reads.
- Congo:
  - The bitboards are computed from the colour and piece of every square, not stored beside them, so they cannot fall out of step.
  - The precomputed move tables are functions of the square.
  - `random_move`, `mobility`, `diff`, `score`, `label` and `copy_from` are not modelled, nor are the printing helpers.
  - `set_game_over` (games/congo2.h:329) is not modelled. It zeroes both lion bitboards while the lions stay on their squares, and the model's bitboards are derived from the squares, so they cannot hold a lion board that disagrees with the squares.
  - The move list is an unbounded sequence. The source's is an array of MAX_MOVES = 144 moves (games/congo2.h:15) counted by a `uint8_t`.
  - CongoState.State.Place and CongoState.State.Remove require the square to be free and taken, respectively, which is what the source's callers ensure.
  - The lion's sight is computed for every piece and used only by the lion, which gives the same move words.
- Congo.MoveList.Add: appends to an unbounded sequence. The source's `_add` (games/congo2.h:70-76) writes at `move[count]` with no check against the 144 slots. The model neither bounds the moves a position lists nor proves that every reachable position lists at most 144, so an overflow of the array is not captured.
- TicTacToe.State.Score and TicTacToe.State.Ipow: compute 10 to the power of a line count with unbounded integers. The source's `ipow` and its sums are `int` (games/ttt.h:109-153). One term, 10^SIZE, passes INT_MAX once SIZE is 10, and the sum of several terms can pass it on smaller boards. The two agree whenever every intermediate value fits an `int`, as on the default 3-by-3 board.
- Negamax.Search, Negamax.ChildValues and Negamax.LeafValue: negate exactly. The source negates a 32-bit `int`, so a child with no move that is not over, worth INT_MIN, comes back as INT_MIN instead of 2^31. Negamax.SearchAsWritten computes that, and Negamax.AsWrittenAgrees shows the two agree whenever the values stay in the symmetric range. See the Findings table. Negascout.Search's window reasoning is stated against the exact Negamax.Search.
- Strategy.BasicMinimax.AsyncSearch and Strategy.BasicMinimax.Next: score through Strategy.TaskScore, which wraps as the source does, applied to whatever search is passed in as `eval`.
- Tanbo.State.Score: computes with unbounded integers. The source subtracts `size_t` counts and narrows the sum to `int`. The two agree whenever the true score fits an `int`, which it does on every board the game's types allow.
- Connect6.MoveList.Set: carries on where the source fails an assertion. On a two-stone turn with one empty cell, `bin_coeff` fails its `n >= k` assertion. With two empty cells, `set` fails its `empty == 1` assertion. Connect6.SetAsWritten models both failures as `None`, and the corrected Connect6.SetCount is what `Set` uses. See the Findings table.
- Druid.State.Score: uses the corrected win bonus Druid.WinBonus, not the source's `ww = -1`. Connect6.MoveList.Set (above), Yavalath.State.RandomMove, TicTacToe.State.Complete and the other corrected members listed under "## Findings" likewise compute the intended behaviour. Each has its as-written twin beside it.
- Yavalath.State.FeatureAsWritten: returns `None` where the source reaches `DIE` after its loop.
- Bit counting and `log2`: the inline-assembly `log2` and the `__builtin_popcountl` macro are specified by Bitboard.Log2 and Bitboard.Popcount over the bits of the word.

## Findings

| source | as written | input that shows it | evidently intended | confidence | as-written member | corrected member |
|---|---|---|---|---|---|---|
| engine/minimax/negascout.h:22-54 | `search` starts `pvs` with the window (INT_MIN, INT_MAX). The first child is then searched with `-pvs(child, -b, -alpha)`, and `-INT_MIN` wraps to INT_MIN, so the child's window is empty | a three-ply tree where position 1 returns after its first child: the search answers -10 where negamax gives -5 | a root window of (-INT_MAX, INT_MAX), inside which no negation overflows, giving the negamax value | high, not executed | Negascout.WindowWrapCutsShort | Negascout.Search |
| engine/minimax/negamax.h:24-30 | an interior node starts from `alpha = INT_MIN` and takes `-search(child)` in `int`. A child with no move that is not over returns INT_MIN, and its negation wraps back to INT_MIN | a root whose only move leads to a position with no move that is not over: `search` at depth 2 returns INT_MIN, below the negation of its child's value | every move is worth at least the negation of its child's value, so the move that leaves the opponent stuck is not the worst | medium, not executed | Negamax.MovelessChildWraps | Negamax.SearchIsBestChild |
| engine/board.h:83 | the row letters read `"abcdefghijlkmnopq"`, with `l` before `k` | rows 10 and 11 are labelled `l` and `k` | row y is labelled with the y-th letter of the alphabet | high, not executed | Board.LabelRowsSwapped | Board.SortedLabelIsAlphabetical |
| engine/board.h:44-45 | `init(i)` stops when `j > i - 1` on unsigned integers | `i = 0`: `i - 1` wraps to the largest value and the loop never stops | stop once `j >= i` | high, not executed | Board.InitZeroNeverStops | Board.TriHexLookup.Init |
| games/druid.h:164-172 | a White win sets `ww = -1`, and the score adds `(wb - ww) * 1000` | a White win adds +1000 to the score, exactly as a Black win does | `ww = 1`, so swapping the colours negates the score | high, not executed | Druid.WhiteWinCountsForBlack | Druid.ScoreAntisymmetric |
| games/connect6.h:86-98 | `set` asserts `empty == 1` whenever one move is counted | a two-stone turn with two empty cells: one move fills both and the assertion fails | the count is the number of moves `fill_move` can make, which is 1 there | medium, not executed | Connect6.SetAsWrittenLastPair | Connect6.SetCountListing |
| games/yavalath.h:198-200 | `random() % DSIZE*DSIZE` parses as `(random() % DSIZE) * DSIZE` | every random number: the probe always lands in column 0 | `random() % (DSIZE*DSIZE)`, so that every square can be probed | high, not executed | Yavalath.ProbeAsWrittenColumnZero | Yavalath.ProbeReachesEverySquare |
| games/yavalath.h:72-89 | `operator[](i)` declares a loop counter that hides the argument `i` | any `i` other than 0: the only round that can answer is the one for cell (0, 0) | the input of the i-th valid cell in row-major order | high, not executed | Yavalath.State.FeatureAsWritten | Yavalath.State.Feature |
| games/connect4.h:71-78 | both tests of `operator[]` are on the even half (`i%2 == 0`) | a white piece lights the black input of its pair, and the white input never lights | even inputs for Black, odd inputs for White | high, not executed | Connect4.FeatureAsWrittenMixesColours | Connect4.Feature |
| games/connect4.h:68 | `valid_index` accepts a column only when `height < MAX_Y - 1` | a column with one free cell left: `moves` lists it and `valid_index` refuses it | accept exactly the columns `moves` lists (lines 215-217) | high, not executed | Connect4.ValidIndexRefusesLastCell | Connect4.ValidIndexIsListed |
| games/ttt.h:192-211 | `complete()` returns the colour of the main diagonal when it is uniform, even when that colour is empty | on an even board whose main diagonal is empty and whose anti-diagonal is Black's, `complete()` says nobody has won | name a winner exactly when some player holds a whole line | high, not executed | TicTacToe.AntiDiagonalMissed | TicTacToe.CompletionIsWin |
| games/ttt.h:289-296 | `atoi(...) - 1` is narrowed into a `uint8_t` | the token "257" wraps to column 0 and is taken for "1" | accept only the numbers 1 to SIZE | high, not executed | TicTacToe.ParseMoveWraps | TicTacToe.ParseMoveExact |
| engine/search.h:121-126 | `connected_any` clears the marks once, then runs the east-west search and the north-south search | a 3x3 board whose first column is Black: the east-west search marks the column, and the north-south search then misses the crossing | clear the marks before each of the two searches | high, not executed | Search.ConnectedAnyOnColumn | Search.PathFinder.ConnectedEither |
| games/druidhex.h:489-496 | `tryLintel` also requires a move beyond the lintel's far end | the lintel along the top edge of the sample board: its far end (2, 0) is a corner with no cell to the east, so the lintel is never offered | offer every lintel whose three cells lie on the board and pass the height and colour test | high, not executed | DruidHex.FarEndRefused | DruidHex.LintelsIntended |
| games/druidhex.h:528-529 | `lintelMoves` visits only the first SIZE rows of the hexagon | the lintel along row 3 of the sample board is never offered, though it passes every test | visit all 2*SIZE-1 rows | high, not executed | DruidHex.LowerRowRefused | DruidHex.LintelsIntended |
| games/gonnect.h:43-51 | the move list's count is a `uint8_t` | a 16 by 16 empty board with MAX_MOVES = 258: 256 adds pass the assertion, the count wraps to 0, and `moves` ends a game that has not begun | a count wide enough for every cell | medium, not executed | Gonnect.EmptySixteenBoardLooksFinished | Gonnect.MovesFromCleared |
| games/breakthrough.h:267 | `boardToBitString` prints 63 bits | a board with square 63 empty and the same board with square 63 taken print the same string | print all 64 bits, so that different boards print differently | medium, not executed | Breakthrough.LastSquareHidden | Breakthrough.FullBitStringInjective |
| games/congo2.h:170-174 | the left slide of a crocodile in the river stops while `tx > 0` | a crocodile on the river at any x from 1 to 6 never reaches column 0, though it reaches column 6 sliding right | slide while `tx >= 0`, reaching every other square of the river | high, not executed | Congo.CrocAsWrittenMissesColumnZero | Congo.CrocReachesRiver |
