# Go rules engine and search opponent, in Dafny

This project models the core of a browser Go game: the rules engine of
`src/main.js` (liberty counting, the stack-based flood fill for groups, the
whole-board pass that writes each group's liberty count onto its stones,
board serialisation, and the capture/suicide/Ko resolution inside the click
handler) and the search opponent of `src/ai.js` (eye detection, move
legality, legal-move enumeration, the static evaluation, the move-ordering
comparator, minimax with alpha-beta pruning and a transposition table,
`getMinimaxMove`, `iterativeDeepening`, `getStrategicMove` and
`getBestMove`).

Everything is a pure function over values. A board is an `n`-by-`n`
`seq<seq<Option<Stone>>>`. A stone carries its colour and its `qi` (the
liberty count the game shows on it). The group analysis reads only the
colours (`Colours(b)`). State that the source keeps in globals becomes
parameters and results:

- the last capture point of the click handler;
- the transposition table, a `map` threaded through the search;
- the Ko history, a parameter.

`Math.random()` becomes a caller-supplied `roll`.

Files, one module each:

| file | module | models |
|---|---|---|
| wrappers.dfy | Wrappers | `Option` |
| board.dfy | GoBoard | colours, positions, the four directions, board updates |
| liberties.dfy | Liberties | `calculateQi`, `calculateGroupQi`, placing a stone |
| groups.dfy | Groups | connectivity, `findGroup` |
| settle.dfy | Settle | `updateQiForAllGroups` |
| serialize.dfy | Serialization | `serializeBoard` and a decoder for it |
| resolve.dfy | Resolve | the move resolution of the click handler |
| legality.dfy | Legality | `isEyePoint`, `isMoveLegal`, `getLegalMoves` |
| ordering.dfy | Ordering | `moveOrdering` |
| evaluation.dfy | Evaluation | `evaluateBoard` |
| search.dfy | Search | `minimax`, `getMinimaxMove`, `iterativeDeepening`, as written |
| keyed.dfy | KeyedSearch | the same search with a table keyed by the whole search state |
| strategy.dfy | Strategy | `getStrategicMove`, `getBestMove` |

Points where the code behaves differently from what a reader of Go rules
might expect. The model follows the code each time:

- **Ko history.** Nothing appends to `koHistory` (`src/ai.js:3`, read at `src/ai.js:63`). It stays empty in the program, so it is a parameter here.
- **Eye avoidance.** `isMoveLegal` rejects the mover's own eye points (`src/ai.js:32-34`), so an eye point is not a legal move, in the model as in the code.
- **No captures during search.** `minimax` and `getMinimaxMove` place a stone and recount liberties but never remove captured stones (`src/ai.js:191-193`, `src/ai.js:203-205`, `src/ai.js:231-233`). `Search.Child` does the same.
- **Point of view of the first ply.** `getMinimaxMove` searches each child with the opponent's colour (`src/ai.js:234`). At depth 1 that child is a leaf, scored by `evaluateBoard` for the opponent when its key is not yet in the table (`src/ai.js:172-175`, `Search.MinimaxLeaf`). `Search.SearchChild` keeps this colour.
- **Ko pre-check.** The click handler records the capturing stone's own point as `lastCapturedPosition` (`src/main.js:247-251`). That point is occupied on the next move, so the pre-check at `src/main.js:190-204` never decides a move (`Resolve.KoCheckNeverFiresNext`).
- **Iterative deepening.** Every pass repeats the first one; see Findings.

## Model

| member | source | states |
|---|---|---|
| GoBoard.Opposite | src/main.js:286 | The colour to move next differs from the mover's: black becomes white and white becomes black. |
| GoBoard.EmptyGrid | src/main.js:150 | A new board is square of the configured size and every point is empty. |
| GoBoard.Step | src/main.js:14-19 | Each of the four directions (right, down, left, up) leads to an orthogonal neighbour. |
| Liberties.CountFrom | src/main.js:21-29 | The direction loop of `calculateQi` adds at most one per remaining direction. Its total is the size of the liberty set (`Liberties.StoneLibertiesIsLibertySet`). |
| Liberties.StoneLiberties | src/main.js:12-32 | A single stone never has more than 4 liberties. |
| Liberties.StoneLibertiesIsLibertySet | src/main.js:12-32 | The single-stone count is the number of distinct in-bounds empty neighbours. |
| Liberties.StoneLibertiesOnEmptyBoard | src/main.js:21-29 | On an empty board the count is 4 minus one for each side of the board the point touches. |
| Liberties.EmptyBoardLibertyValues | src/main.js:12-32 | On an empty board a stone has 2 liberties in a corner, 3 on the rest of the edge and 4 inside. |
| Liberties.CollectLiberties | src/main.js:95-112 | Definition of the loop of `calculateGroupQi`: each stone adds its in-bounds empty neighbours to the set. `Liberties.CollectLibertiesIsUnion` states that the result is the union of the stones' liberty sets, and `Liberties.CollectLibertiesBound` that each stone adds at most four points. |
| Liberties.IsCorner | src/ai.js:100-101 | Definition of the corner test shared by `evaluateBoard` and the comparator (`src/ai.js:157-158`): both coordinates are 0 or n-1. `Ordering.OffBoardOnEdge` states that a corner has at least two neighbours off the board. |
| Liberties.IsEdge | src/ai.js:103-104 | Definition of the edge test (`src/ai.js:159-160` too): some coordinate is 0 or n-1. `Ordering.OffBoardOnEdge` states that such a point has a neighbour off the board. |
| Liberties.CollectLibertiesIsUnion | src/main.js:93-111 | The liberty set built stone by stone is the union of the stones' empty neighbours, each point counted once. |
| Liberties.CollectLibertiesBound | src/main.js:93-111 | Each stone adds at most 4 points to the liberty set. |
| Liberties.LibertiesAreEmpty | src/main.js:106-109 | Every liberty is an empty point of the board. |
| Liberties.GroupQi | src/main.js:92-115 | A group's count is the size of the set of distinct liberties of its stones. It is at most 4 per stone and at most the number of empty points. |
| Liberties.Place | src/main.js:214-215 | Placing a stone puts a stone of the mover's colour on that point, with a `qi` equal to its single-stone liberty count on the board before the move (`new Stone(...)`); every other cell is unchanged. |
| Groups.ConnectedSym | src/main.js:76-86 | Being joined by a same-colour chain is symmetric. |
| Groups.ConnectedTrans | src/main.js:76-86 | Being joined by a same-colour chain is transitive. |
| Groups.ComponentOfMember | src/main.js:61-90 | Every stone of a group has the same group. |
| Groups.PushNeighbours | src/main.js:76-86 | The neighbour scan pushes only unvisited same-colour neighbours, each once. It marks exactly what it pushes. Afterwards every same-colour neighbour is marked. |
| Groups.StepKeepsInvariant | src/main.js:71-87 | One iteration of the flood-fill loop keeps these facts: stack and group hold only stones connected to the start; neither lists a point twice; group and stack are disjoint; all their points are marked. The number of unmarked points never grows, and it drops when something is pushed. |
| Groups.GroupLoop | src/main.js:71-87 | When the loop ends: the group extends the group it started with; every stacked stone is in it; only connected stones are in it, none twice; the marks are the old marks plus the group; every same-colour neighbour of the group is marked. |
| Groups.FindGroup | src/main.js:61-90 | `findGroup` returns the start stone and only stones of its colour joined to it, each once. It marks exactly the returned stones in addition to the old marks. |
| Groups.FindGroupIsComponent | src/main.js:61-90 | From marks that touch no stone connected to the start, the returned stones are exactly the start's whole 4-connected group: it is maximal. |
| Settle.WriteQi | src/main.js:124-126 | Writing a group's count gives each listed stone that `qi` and leaves its colour and every other cell alone. |
| Settle.UnvisitedGroupIsFresh | src/main.js:119-122 | During the whole-board pass, an unmarked stone's group has no marked stone, so `findGroup` starts from clean marks for it. |
| Settle.SettleStep | src/main.js:119-127 | Settling the group found at an unmarked stone keeps the pass's invariant: every marked stone carries its group's liberty count, and the marks are whole groups. |
| Settle.SettleFrom | src/main.js:119-129 | The row-major pass leaves the colours as they were and gives every stone its group's liberty count. |
| Settle.UpdateQi | src/main.js:117-130 | After `updateQiForAllGroups` the colours are unchanged and every stone's `qi` is its group's liberty count. |
| Settle.SettledGroupSharesQi | src/main.js:117-130 | After the recount, two connected stones carry the same `qi`. |
| Serialization.RowString | src/main.js:138 | Definition of `row.map(...).join('')`: the tokens of a row's cells, concatenated. `Serialization.DeserializeSerialize` states that the decoder reads them back. |
| Serialization.JoinRows | src/main.js:138 | Definition of `.join('/')`: the row strings with one `/` between neighbours. `Serialization.DeserializeSerialize` states that the decoder reads them back. |
| Serialization.SerializeGrid | src/main.js:137-139 | Definition of `serializeBoard` on a grid of colours. See `Serialization.DeserializeSerialize` and `Serialization.SerializeInjective`. |
| Serialization.Serialize | src/main.js:137-139 | Definition of `serializeBoard`: it reads only each cell's colour. What the string means is stated by `Serialization.DeserializeSerialize` (it decodes back to the colours) and `Serialization.SerializeInjective` (two boards get the same key exactly when their colours agree). |
| Serialization.Token | src/main.js:138 | A cell's token is non-empty and holds no row separator. |
| Serialization.DeserializeSerialize | src/main.js:137-139 | Decoding the string of a square board gives back its colours (round trip). |
| Serialization.SerializeInjective | src/main.js:137-139 | Two square boards get the same string if and only if they hold the same colours everywhere. |
| Resolve.IsCaptureCandidate | src/main.js:224 | Definition of the capture test: a stone of the other colour whose `qi` is at most 0 (the same test as `src/ai.js:50`). `Resolve.CapturedStonesOfSettled` states that on a recounted board it holds exactly for opposing stones whose group has no liberty. |
| Resolve.CaptureScan | src/main.js:222-228 | The scan from a cell on lists exactly the opposing stones with `qi <= 0` at or after that cell in row-major order. |
| Resolve.CapturedStones | src/main.js:221-228 | `capturedStones` lists exactly the opposing stones whose `qi` is at most 0. |
| Resolve.RemoveStones | src/main.js:231-233 | Removing the listed points empties exactly those points and leaves every other cell as it was. |
| Resolve.CapturedStonesOfSettled | src/main.js:218-228 | On a recounted board, the `qi <= 0` test finds exactly the opposing stones whose group has no liberty. |
| Resolve.SettledCaptures | src/main.js:218-228 | After the stone is placed and liberties recounted, the scan lists exactly the captured stones and never the new stone. It is non-empty exactly when the move captures something. |
| Resolve.AfterRemoval | src/main.js:230-236 | After the removal and the second recount, exactly the captured points are empty and every other point keeps its colour. |
| Resolve.PlacedStoneAfter | src/main.js:236-239 | The new stone is still on the board after the removal. When nothing was captured, its `qi` is its group's liberty count. |
| Resolve.ResolveStages | src/main.js:211-239 | Combines the three stages: the recounted placed board, the capture list, and the board after removal and recount. |
| Resolve.IsSuicide | src/main.js:236-243 | Definition of the suicide rule the handler enforces: with the stone placed, its group has no liberty and no opposing group is left without one. `Resolve.ResolveMove` states that such a move is rejected, and `Legality.SuicideTestIsSuicide` that the test of `src/ai.js:36-60` is the same rule. |
| Resolve.KoBlocked | src/main.js:190-204 | Definition of the Ko pre-check: the click is on the recorded point, and a lone stone there would have exactly one liberty. `Resolve.ResolveMove` states that a move is rejected when it holds, and `Resolve.KoCheckNeverFiresNext` that it never decides the move after an accepted one. |
| Resolve.ResolveMove | src/main.js:188-254 | A click on an occupied point is rejected. A move is rejected if and only if the point is occupied, the Ko pre-check fires, or it is a suicide. On acceptance: every stone is recounted; exactly the captured stones are gone; no stone of the mover's colour is removed; the turn passes to the other colour; the last capture point is the move's point exactly when something was captured, and empty otherwise. |
| Resolve.KoCheckNeverFiresNext | src/main.js:188-251 | After an accepted move, the next click is rejected exactly when its point is occupied or it is a suicide. The Ko pre-check can never decide it, because the recorded point holds the capturing stone. |
| Legality.EyeFrom | src/ai.js:14-27 | The early-exit direction loop succeeds exactly when every remaining neighbour is on the board and holds the given colour. |
| Legality.IsEyePoint | src/ai.js:6-29 | A point is an eye exactly when all four neighbours are on the board and hold the given colour. A point on the edge is never one. |
| Legality.GroupLibertiesCoverStone | src/ai.js:41-46 | A group without liberties leaves none to any of its stones, so the single-stone test never hides a group without liberties. |
| Legality.FoundGroupQi | src/ai.js:42-44 | The group count `isMoveLegal` computes from a fresh `findGroup` is the liberty count of the new stone's whole group. |
| Legality.NoCaptureScan | src/ai.js:47-56 | On a recounted board the capture scan is empty exactly when the move captures nothing. |
| Legality.SuicideTestIsSuicide | src/ai.js:36-60 | The three-stage test of `isMoveLegal` (single-stone count 0, group count 0, no opposing stone with `qi <= 0`) holds exactly when the move is a suicide by the click handler's rule. |
| Legality.IsMoveLegal | src/ai.js:31-68 | A move is legal exactly when the point is not the mover's own eye, the move is not a suicide, and the board with the stone placed (captures not removed) is not in the Ko history. |
| Legality.IsLegalEmpty | src/ai.js:74 | Definition of the test `getLegalMoves` applies to a cell: on the board, empty, and `isMoveLegal`. `Legality.LegalMoves` states that the result holds exactly the cells that pass it. |
| Legality.LegalScan | src/ai.js:72-77 | The nested scan from a cell on lists exactly the legal empty points at or after it, in strictly increasing row-major order. |
| Legality.LegalMoves | src/ai.js:70-80 | `getLegalMoves` lists exactly the empty points where `isMoveLegal` holds, in row-major order, with no point twice. |
| Ordering.MoveKey | src/ai.js:144-161 | Definition of the comparator's score as a function of the move. `Ordering.MoveOrdering` states the order it induces. |
| Ordering.OrderKey | src/ai.js:144-160 | Definition of the comparator's score: occupied neighbours, minus 30 on a corner, minus 10 on the rest of the edge. See `Ordering.OrderKeyTiers` for the three tiers it yields and `Ordering.MoveOrdering` for the order it induces. |
| Ordering.OccupiedFrom | src/ai.js:152-155 | The neighbour count of the comparator is at most the number of directions left. |
| Ordering.OccupiedBound | src/ai.js:152-155 | Occupied neighbours and off-board neighbours together number at most four. |
| Ordering.OffBoardOnEdge | src/ai.js:157-160 | A point on the edge has at least one neighbour off the board, and a corner has at least two. |
| Ordering.OrderKeyTiers | src/ai.js:144-161 | The comparator's key is -30..-28 on a corner, -10..-7 on the rest of the edge and 0..4 inside. Every interior point therefore outranks every other edge point, which outranks every corner. |
| Ordering.WithKeyMembers | src/ai.js:143 | The elements with a given key are exactly the input's elements with that key. |
| Ordering.InsertPermutes | src/ai.js:143 | Insertion adds exactly the inserted element. |
| Ordering.InsertSorted | src/ai.js:143 | Insertion keeps the sequence sorted by descending key. |
| Ordering.InsertStable | src/ai.js:143 | Insertion keeps, for every key, the order of the elements with that key, the new one first. |
| Ordering.Insert | src/ai.js:143 | Definition of one step of the stable sort: insert in front of the first element whose key is not larger. `Ordering.InsertPermutes`, `Ordering.InsertSorted` and `Ordering.InsertStable` state its properties. |
| Ordering.SortBy | src/ai.js:143-162 | The stable sort returns a permutation of its input, sorted by descending key, with equal-key elements in input order. |
| Ordering.MoveOrdering | src/ai.js:141-163 | `moveOrdering` returns the same moves, best key first, and moves with equal keys keep their original order. |
| Evaluation.CellScore | src/ai.js:95-113 | Definition of one cell's term: an own stone gives its qi plus the positional term, an opposing stone minus its qi, an empty cell 0. See `Evaluation.EvaluateSwapColours` and `Evaluation.EvaluateBothSides`. |
| Evaluation.PositionBonus | src/ai.js:99-108 | Definition of the positional term of an own stone: -100 on a corner, -70 on the rest of the edge, +20 inside. `Evaluation.EvaluateBothSides` states that these terms are what the two points of view add up to. |
| Evaluation.RowSum | src/ai.js:95-112 | Definition of the inner `forEach` as a sum over a row's cells. `Evaluation.RowSumTransfer` and `Evaluation.RowSumAdd` state how it depends on the cell terms. |
| Evaluation.BoardSum | src/ai.js:94-113 | Definition of the outer `forEach` as a sum over the rows. `Evaluation.BoardSumTransfer`, `Evaluation.BoardSumAdd` and `Evaluation.BoardSumZero` state how it depends on the cell terms. |
| Evaluation.EvaluateBoard | src/ai.js:90-117 | Definition of `evaluateBoard` as the row-by-row sum of the cell terms. Its properties are stated by `Evaluation.EvaluateEmpty`, `Evaluation.EvaluateSwapColours` and `Evaluation.EvaluateBothSides`. |
| Evaluation.RowSumTransfer | src/ai.js:95-113 | One row's score depends only on its cells' contributions. |
| Evaluation.BoardSumTransfer | src/ai.js:94-114 | The board's score depends only on the cells' contributions. |
| Evaluation.BoardSumAdd | src/ai.js:94-114 | Adding contributions cell by cell adds the board scores. |
| Evaluation.BoardSumZero | src/ai.js:94-114 | A board whose every cell contributes nothing scores 0. |
| Evaluation.EvaluateEmpty | src/ai.js:90-117 | An empty board scores 0 for either colour. |
| Evaluation.SwapColours | src/ai.js:90-117 | The swapped board has the same stones and `qi`, with every colour exchanged. |
| Evaluation.EvaluateSwapColours | src/ai.js:90-117 | Exchanging every stone's colour and the evaluated colour leaves the score unchanged. |
| Evaluation.EvaluateBothSides | src/ai.js:96-111 | The `qi` terms cancel between the two points of view: the two colours' scores add up to the positional terms of all the stones. |
| Search.AtLeast | src/ai.js:196 | Definition of the cut-off test `alpha >= beta` (also `src/ai.js:208`) on integers extended with -Infinity and +Infinity. `Search.MaxLoop` and `Search.MinLoop` use it for the break. |
| Search.Max | src/ai.js:194-195 | The larger of two extended integers is at least each of them and is one of them. |
| Search.Min | src/ai.js:206-207 | The smaller of two extended integers is at most each of them and is one of them. |
| Search.Child | src/ai.js:191-193 | The board after the search places a stone (here and at `src/ai.js:203-205` and `src/ai.js:231-233`): its colours are those of the old board with the stone added, and no stone is removed. Every stone's qi is recounted, so the board is settled. |
| Search.ChildShrinks | src/ai.js:191-193 | A child board has one empty point fewer, so the search terminates whatever the depth. |
| Search.OrderedMovesEmpty | src/ai.js:178-179 | Every move the search tries is an empty point of the board. |
| Search.Minimax | src/ai.js:166-215 | A board already in the table returns the stored value and the table unchanged. Otherwise the board's key is stored with the returned value. No entry is ever removed or changed. |
| Search.MinimaxLeaf | src/ai.js:172-185 | A board not in the table, at depth 0 or without legal moves, gets its static evaluation, and that value is stored under its key. |
| Search.MaxLoop | src/ai.js:188-199 | The maximising loop keeps every table entry. It returns a finite value at least the starting value once it has seen a move. |
| Search.MinLoop | src/ai.js:200-211 | The minimising loop keeps every table entry. It returns a finite value at most the starting value once it has seen a move. |
| Search.LegalMovesOnBoard | src/ai.js:70-80 | Every legal move lies on the board. |
| Search.SearchChild | src/ai.js:231-234 | Definition of the probe of `getMinimaxMove`: place the mover's stone, recount, and search the child as a minimising node of the other colour. `Search.SearchChildIsTabled` states how it uses the table: it records every child's value and answers from the table when the key is present. |
| Search.ChildKey | src/ai.js:167 | Definition of the table key of the child a move produces: `serializeBoard` of the child board. `Search.SearchChildIsTabled` states that the probe stores and reads each child's value under this key. |
| Search.ChildValues | src/ai.js:230-239 | One value per move. |
| Search.ChildValuesRecorded | src/ai.js:230-234 | After the child searches of `getMinimaxMove`, the table still holds every earlier entry. It also holds every child's key with the value that child's search returned. |
| Search.ChildValuesCached | src/ai.js:167-170 | When every child's key is already in the table, the child searches read the stored values back and change nothing. |
| Search.ChildValuesAnswer | src/ai.js:230-234 | If each child search returns a fixed value from every table that satisfies an invariant, and keeps the invariant, the values are exactly those. |
| Search.FirstMaxIndex | src/ai.js:235-238 | The index picked holds the largest value, and every earlier value is strictly smaller. |
| Search.MoveLoop | src/ai.js:230-239 | The loop leaves the table as the child searches leave it. |
| Search.MoveLoopPicksFirstMax | src/ai.js:225-242 | With no moves the loop returns none. Otherwise it returns the first move with the largest child value, since the comparison is strict. |
| Search.LoopAnswers | src/ai.js:225-242 | If each child search returns a fixed value from every table that satisfies an invariant, and keeps the invariant, the loop picks the first move with the largest such value. |
| Search.GetMinimaxMove | src/ai.js:225-242 | `getMinimaxMove` returns none if and only if there is no legal move. Otherwise it returns the first legal move, in row-major order, whose child value is the largest. The table ends as the child searches leave it. |
| Search.DeepenFrom | src/ai.js:219-221 | Past `maxDepth` the loop returns what it holds. Otherwise it returns none exactly when there is no legal move. |
| Search.IterativeDeepening | src/ai.js:217-223 | `iterativeDeepening` returns none when `maxDepth < 1`. Otherwise it returns none exactly when there is no legal move. |
| Search.PassRepeats | src/ai.js:166-170 | A pass at any depth, run on the table another pass left, returns that pass's move and the same table. Every child's key is already stored, whatever the depth. |
| Search.DeepenRepeats | src/ai.js:219-221 | Passes run after a first pass all repeat it. |
| Search.DeepeningRepeatsFirstPly | src/ai.js:217-223 | For every `maxDepth >= 1`, `iterativeDeepening` as written returns exactly the depth-1 pass's move and table. |
| KeyedSearch.AlphaBeta | src/ai.js:166-215 | Definition of `minimax` without a table: the same leaves, move order, colours, pruning and break. It is the reference: `KeyedSearch.KeyedMinimax` states that the keyed search equals it from a sound table. |
| KeyedSearch.AlphaBetaMax | src/ai.js:188-199 | The table-free maximising loop is finite once it has seen a move. |
| KeyedSearch.AlphaBetaMin | src/ai.js:200-211 | The table-free minimising loop is finite once it has seen a move. |
| KeyedSearch.KeyedMinimax | src/ai.js:166-215 | With the table keyed by board, depth, window, role and colour, a sound table (every entry equals the table-free search) gives exactly the table-free alpha-beta value and stays sound. |
| KeyedSearch.KeyedMaxLoop | src/ai.js:188-199 | From a sound table, the keyed maximising loop gives the table-free loop's value and leaves the table sound. |
| KeyedSearch.KeyedMinLoop | src/ai.js:200-211 | From a sound table, the keyed minimising loop gives the table-free loop's value and leaves the table sound. |
| KeyedSearch.ChildValue | src/ai.js:231-234 | Definition of the table-free value of one move of `getMinimaxMove`: the reference search of the child as a minimising node of the other colour. See `KeyedSearch.KeyedLoopIsPlain`. |
| KeyedSearch.PlainMove | src/ai.js:225-242 | Definition of the table-free move choice: the first legal move with the largest `ChildValue`. `KeyedSearch.KeyedGetMinimaxMove` and `KeyedSearch.KeyedIterativeDeepening` state that the corrected search returns it. |
| KeyedSearch.KeyedChild | src/ai.js:231-234 | Definition of the probe of `getMinimaxMove` on the fully keyed table. `KeyedSearch.KeyedChildAnswers` states that from a sound table it returns `ChildValue` and keeps the table sound. |
| KeyedSearch.KeyedLoopIsPlain | src/ai.js:230-239 | The move loop on the keyed table returns none exactly when there is no legal move. From a sound table it picks the table-free search's move. |
| KeyedSearch.KeyedGetMinimaxMove | src/ai.js:225-242 | `getMinimaxMove` on the keyed table returns none exactly when there is no legal move. From a sound table it returns the table-free search's move at its own depth. |
| KeyedSearch.KeyedDeepenFrom | src/ai.js:219-221 | From a sound table, the deepening loop ends on the table-free search's move at `maxDepth`. |
| KeyedSearch.KeyedIterativeDeepening | src/ai.js:217-223 | `iterativeDeepening` on the keyed table returns none when `maxDepth < 1`. From a sound table (the empty one, say) it returns the table-free search's move at `maxDepth`. |
| Strategy.Central | src/ai.js:123 | Definition of the band test: both coordinates in 3..n-4. `Strategy.CentralMoves` states that the filter keeps exactly the moves that pass it. |
| Strategy.CentralMoves | src/ai.js:123 | The filter keeps exactly the legal moves with both coordinates in 3..n-4, off the first three lines. |
| Strategy.PickStrategic | src/ai.js:122-129 | The pick is none exactly when there are no candidates. Otherwise it is a candidate, and a central one whenever a central candidate exists. |
| Strategy.PickReachesCentral | src/ai.js:124-125 | Every central candidate is drawn for some roll. |
| Strategy.PickReachesAny | src/ai.js:127 | With no central candidate, every candidate is drawn for some roll. |
| Strategy.GetStrategicMove | src/ai.js:120-130 | `getStrategicMove` returns none exactly when there is no legal move. Otherwise it returns a legal move, central whenever some legal move is central. |
| Strategy.StrategicRollReaches | src/ai.js:120-130 | Every central legal move is the strategic move for some roll, and so is every legal move when none is central. |
| Strategy.GetBestMove | src/ai.js:132-138 | `getBestMove` always returns the strategic move and leaves the table alone. The minimax fallback runs only when there is no legal move, so it never supplies a move. |

## Left out

- Drawing: the canvas, `Stone.draw`, the grid and `updateTurnIndicator`. The `alert` messages are left out too; a rejection is the `Rejected` outcome.
- The click position: the mapping from pixels to a grid point and the nearness test. A move is a `Pos` on the board.
- `Stone` fields: `cellSize` and `xIndex`/`yIndex` beyond the cell's position are left out. The `stones` back-reference becomes the board value. `boardSize` is the board's length.
- The `visited` grid of `findGroup` is a set of points. The `"x,y"` strings of `calculateGroupQi` are positions.
- `lastMove` and `previousBoardState` are left out. Both are declared but never read. `previousBoardState` (`src/main.js:57`) is never assigned after it is set to null. The `lastMove` assigned at `src/main.js:254` is the handler-local one declared at `src/main.js:147`, which shadows the module-level one at `src/main.js:56`.
- `currentBoardState` is left out. It is computed but never used.
- Resolve.ResolveMove: a rejected move carries no board. After a rejected suicide the source leaves the other stones with `qi` values computed with the new stone present. The rejection returns (`src/main.js:239-243`) before the redraw (`src/main.js:257-283`), and the next accepted move recounts (`src/main.js:218`) before anything reads `qi`. So nothing reads or draws these values before the next full recount.
- `deepCopyStones` is not part of this model. It is imported by `src/ai.js` but defined in neither file, and is taken to be a value copy.
- Module linkage: `src/main.js` has no `export` statement, yet `src/ai.js:1` imports six names from it. The model assumes these imports resolve to the functions of `src/main.js`.
- The `Math.random()` draws (`src/ai.js:125`, `src/ai.js:127`) are a caller-supplied `roll`. The index is `roll % k`, which reaches every candidate.
- `getRandomMove` is left out. It is not part of the engine's decision path.
- The module-level `koHistory` and `transpositionTable` are parameters and results. `lastCapturedPosition` and the turn are threaded through `Resolve.ResolveMove`.
- Search.SearchChild and KeyedSearch.KeyedChild: answer 0 for a point off the board. Every move they are asked about is on the board, so this case never happens.

## Findings

| source | as written | input that shows it | evidently intended | confidence | as-written member | corrected member |
|---|---|---|---|---|---|---|
| src/ai.js:166-170, src/ai.js:217-223 | The transposition table is keyed by the serialized board alone. So the depth-1 pass of `iterativeDeepening` stores every child's key, and each deeper pass reads those depth-1 values back without searching. | Any board with a legal move and `maxDepth = 2`: the result is the depth-1 pass's move, table included (`Search.DeepeningRepeatsFirstPly`). | Each pass searches to its own depth, and the last pass's move is that of the depth-`maxDepth` search. | not executed | Search.DeepeningRepeatsFirstPly | KeyedSearch.KeyedIterativeDeepening |
