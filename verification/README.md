# Pocket cube solver, modelled in Dafny

`Rubik_2x2x2.py` solves the 2x2x2 Rubik's cube ("pocket cube") by search.
A state is a string of 24 sticker labels. A move is one of twelve
quarter-turns (U, U', R, R', F, F', D, D', L, L', B, B'), each a fixed table
over the 24 sticker positions. Three searches run over these states:

- `backtrack`: depth-bounded backtracking over a list of states;
- `iterative_deep`: the loop that reruns `backtrack` with a growing bound;
- `graphsearch`: an OPEN/CLOSED graph search whose OPEN list is stably
  sorted by a caller-supplied evaluation function `h`.

The Dafny project has one module per layer of the program:

- `Wrappers` (`wrappers.dfy`): `Option` and `Result`.
- `Moves` (`moves.dfy`): the move tables and their algebra. Each table is a
  permutation of 0..23, each X' table is the inverse of the X table, and
  rearranging by a permutation keeps the multiset of labels.
- `CubeState` (`cube.dfy`): the `Cube` class. It covers construction from a
  configuration string, the printed form, the two-way equality (same tiles
  or same printed form), `applicableRules`, `applyRule` with its two error
  cases, `shuffle` with the random draws given as a parameter, and `goal`.
- `Backtracking` (`backtrack.dfy`): `backtrack` as a pure recursive
  function that terminates on the remaining depth budget, and
  `iterative_deep` with a round bound.
- `KeySort` (`sorting.dfy`): the stable ascending `list.sort(key=h)`.
- `GraphSearch` (`graphsearch.dfy`): `graphsearch` as a method. Cube
  objects live in a store indexed by generation order, parents are indices
  into it, and OPEN and CLOSED are lists of indices. The found path is
  rebuilt as linked `Cube` values.

Points where the model follows the code exactly:

- `backtrack` appends each move while unwinding, so its move list runs
  last move first. `Backtracking.Walk` replays such a list from its end.
- `iterative_deep` treats an empty success (the head is already solved)
  like a failure and raises the bound again. With a solved head it
  therefore never returns (`Backtracking.GoalHeadNeverFound`).
- In `graphsearch` the branches for a child already on OPEN or already on
  CLOSED only touch the freshly built child. Its parent is the expanded
  state, so the re-parenting test never fires, and the descendant fix-up
  reassigns depths that are already right. `GraphSearch.Consider` proves
  that these branches leave the store and both lists unchanged.
- The move loop of `graphsearch` takes its move list from the search root
  rather than from the expanded state. Every state offers the same list,
  so this changes nothing.
- `applyRule` on a state with fewer than 24 tiles raises an index error
  (`StickerOutOfRange`). A name missing from the table makes the lookup
  fail (`NoSuchRule`). Both searches pass these errors on.
- The root handed to `graphsearch` may itself have a parent chain, for
  example after a shuffle. The returned path then continues into that
  chain, as the source's parent walk does.

## Model

| member | source | states |
|---|---|---|
| Moves.TableInverses | Rubik_2x2x2.py:70-95 | every move table is a permutation of the 24 positions, and the X' table undoes the X table position by position, in both directions |
| Moves.TableInRange | Rubik_2x2x2.py:70-95 | every move table has 24 entries, each naming a sticker position 0..23 |
| Moves.Lookup | Rubik_2x2x2.py:187 | the table lookup fails exactly for a name that is not one of the twelve moves, and otherwise yields that move's row |
| Moves.GatherMultiset | Rubik_2x2x2.py:189 | rearranging stickers by a permutation keeps the same multiset of labels |
| CubeState.SolvedConfigText | Rubik_2x2x2.py:123 | the default configuration is the string "WWWW RRRR GGGG YYYY OOOO BBBB" |
| CubeState.StripRemovesSpaces | Rubik_2x2x2.py:125 | removing spaces leaves no space and only characters of the original string |
| CubeState.FromConfig | Rubik_2x2x2.py:123-132 | a constructed state's tiles are its configuration without spaces, its printed form strips back to those tiles, and it is a root: depth 0, empty rule, no parent |
| CubeState.ChunkedStrips | Rubik_2x2x2.py:125-128 | the printed form the constructor builds strips back to exactly the tiles |
| CubeState.EqIsTileEquality | Rubik_2x2x2.py:139-140 | for states whose printed form agrees with their tiles, equality holds exactly when the tiles are equal |
| CubeState.RebuildFromPrinted | Rubik_2x2x2.py:135-140 | constructing a state from another state's printed form gives the same tiles and an equal state |
| CubeState.AllRulesApply | Rubik_2x2x2.py:182-183 | every state offers all twelve moves, pairwise different, each of which the table knows |
| CubeState.Turn | Rubik_2x2x2.py:185-198 | a move fails with the unknown-name error exactly for a name missing from the table, with the index error exactly for a known name on fewer than 24 tiles, and succeeds otherwise |
| CubeState.SpacedStrips | Rubik_2x2x2.py:191-198 | the printed form a move builds strips back to exactly the rearranged tiles |
| CubeState.TurnSpec | Rubik_2x2x2.py:187-198 | a successful move yields a consistent state built from the old labels only; on a space-free state, new position i holds old position RULES[name][i], there are 24 tiles, and the label multiset is unchanged |
| CubeState.ApplyRule | Rubik_2x2x2.py:185-203 | applying a move succeeds exactly when the sticker rearrangement does and fails with its error otherwise; the new state is one deeper, records the move name and has the old state as its parent |
| CubeState.TurnThenUndo | Rubik_2x2x2.py:70-95 | applying a move and then its primed partner restores the first 24 stickers |
| CubeState.ApplyThenUndo | Rubik_2x2x2.py:185-203 | on a 24-sticker state, X followed by X' succeeds and gives back a state with the original tiles, equal to the original |
| CubeState.Shuffle | Rubik_2x2x2.py:205-215 | on a space-free state a non-empty shuffle succeeds exactly when there are at least 24 tiles; the result is as many levels deeper as moves were made, and its printed form agrees with its tiles |
| CubeState.ShuffleKeepsStickers | Rubik_2x2x2.py:205-215 | shuffling a 24-sticker state succeeds and keeps 24 tiles with the same multiset of labels |
| CubeState.UnshuffleRestores | Rubik_2x2x2.py:205-215 | shuffling and then applying the partner moves in reverse order gives back the original tiles |
| CubeState.ShuffleAppend | Rubik_2x2x2.py:210-213 | shuffling by one more pick is the shorter shuffle followed by that pick's move |
| CubeState.Face | Rubik_2x2x2.py:219-228 | on 24 tiles, the k-th piece that splitting the spaced tile string yields is the block of positions 4k..4k+3 |
| CubeState.OneLabel | Rubik_2x2x2.py:231-236 | a face has exactly one distinct label exactly when it is non-empty and all its stickers agree |
| CubeState.GoalIsUniformBlocks | Rubik_2x2x2.py:217-239 | on 24 tiles, the goal test holds exactly when each of the six blocks 4k..4k+3 is one colour |
| CubeState.SolvedIsGoal | Rubik_2x2x2.py:217-239 | the default state has 24 tiles and passes the goal test |
| Backtracking.Seen | Rubik_2x2x2.py:277 | the head occurs later in the list exactly when some later state equals it |
| Backtracking.Backtrack | Rubik_2x2x2.py:268-335 | a repeated head fails as revisited even when it is a goal; otherwise a goal head succeeds with no moves; otherwise a list longer than the bound fails as too deep; running out of moves happens only within the bound |
| Backtracking.TryRules | Rubik_2x2x2.py:318-335 | the move loop fails only by exhausting the moves, and a success from it carries at least one move |
| Backtracking.BacktrackSound | Rubik_2x2x2.py:268-335 | a returned move list, replayed last element first from the head, reaches a goal, has at most bound + 1 - len(list) moves, and visits pairwise different states none of which equals a later state of the input list |
| Backtracking.FirstSuccessWins | Rubik_2x2x2.py:318-330 | a success from the move loop comes from the first move, in table order, whose subsearch succeeds; every earlier move's subsearch failed, and the result is that subsearch's list with the move appended |
| Backtracking.ExhaustedMeansAllFailed | Rubik_2x2x2.py:318-335 | the loop reports that the moves are exhausted exactly when every move's subsearch was tried and failed |
| Backtracking.NoCrash | Rubik_2x2x2.py:318-325 | from a head with at least 24 space-free tiles the search never raises |
| Backtracking.Child | Rubik_2x2x2.py:322 | the state a move yields from the head has the head as its parent and records that move |
| Backtracking.IterativeDeep | Rubik_2x2x2.py:337-344 | a returned move list is non-empty and is the search result at the first bound from the initial one whose result is neither a failure nor empty; an error is the search's error at the first bound whose result is not a failure or empty; giving up means every tried bound kept the loop going |
| Backtracking.SettlesEarlier | Rubik_2x2x2.py:337-344 | if the loop started one bound later settles on a result, and the current bound kept the loop going, then the loop started at the current bound settles on the same result |
| Backtracking.GoalHeadNeverFound | Rubik_2x2x2.py:337-344 | with a solved head, the loop never returns, whatever the number of rounds |
| KeySort.Sort | Rubik_2x2x2.py:412 | sorting keeps the length and the multiset of OPEN |
| KeySort.SortOrdered | Rubik_2x2x2.py:412 | the sorted OPEN has non-decreasing keys |
| KeySort.SortStable | Rubik_2x2x2.py:412 | elements with equal keys keep their relative order |
| KeySort.SortConstant | Rubik_2x2x2.py:412 | when all keys are equal, sorting leaves the list as it is |
| GraphSearch.Among | Rubik_2x2x2.py:378 | a child is on a list exactly when some listed state equals it |
| GraphSearch.Chain | Rubik_2x2x2.py:415-420 | the collected path starts at the goal state, each entry's parent is the next entry, and the last entry has no parent |
| GraphSearch.FixDescendants | Rubik_2x2x2.py:406-411 | the descendant fix-up changes only depths, and nothing at all when every depth is already its parent's depth plus one |
| GraphSearch.Consider | Rubik_2x2x2.py:373-411 | a child equal to nothing on OPEN or CLOSED is stored with the expanded state as parent and one more depth and appended to OPEN; a child already on OPEN or CLOSED leaves the store and both lists unchanged; the store stays duplicate-free with every parent on CLOSED |
| GraphSearch.Expand | Rubik_2x2x2.py:372-411 | expanding a state only appends to the store and to OPEN, every new entry's parent is the expanded state, the new entries were made by moves in strictly increasing rule-table order (U first), and the invariants are kept; it raises exactly when the expanded state has fewer than 24 tiles; without an error, the result of every move from the expanded state is then equal to some stored state |
| GraphSearch.OrderNext | Rubik_2x2x2.py:372-382 | a pass of the move loop for move i, which stores at most one entry made by that move, keeps the new entries in strictly increasing rule-table order, all before move i + 1 |
| GraphSearch.Round | Rubik_2x2x2.py:363-412 | one round moves the head of OPEN to CLOSED, stops on a goal without expanding, raises only for a root that is not clean, and otherwise keeps the search invariants; after an expansion the new entries are children of that head, made in rule-table order, and OPEN is the rest of the old OPEN followed by the new entries, stably sorted by `h` |
| GraphSearch.Search | Rubik_2x2x2.py:359-422 | a found path starts at a goal, follows parent links to the end, and leads from the root by recorded moves; a solved root yields its own chain after one expansion; at most generated + 1 states are expanded; exhausting OPEN means every generated state was expanded; an error comes only from a root that is not clean; the expanded states, in the order they left OPEN, start at the root, none but the last is a goal, a found path starts at the last one, and without a found path none of them is a goal; exhausting OPEN means every move from an expanded state leads to a state equal to an expanded one; unless it raises, no two expanded states are equal and each after the first is made by a move from one expanded before it |
| GraphSearch.Step | Rubik_2x2x2.py:363-412 | one pass of the loop expands exactly one more state and records it; an expanded state that was not a goal had the results of all its moves stored; an error leaves no expanded state a goal |
| GraphSearch.Conclude | Rubik_2x2x2.py:363-422 | once the loop stops, a reached goal gives the parent chain of the last expanded state, leading from the root; an empty OPEN gives a failure with the expanded states closed under all moves; when no path is returned, no expanded state is a goal; the expanded states are pairwise different and each after the first is made by a move from an earlier one |
| GraphSearch.VisitedDerived | Rubik_2x2x2.py:363-382 | the states on CLOSED are pairwise different, and each after the root was produced by a move from a state closed before it |
| GraphSearch.LineageStep | Rubik_2x2x2.py:364-366 | taking the head of OPEN onto CLOSED keeps the root first on CLOSED and every later entry's parent earlier on it |
| GraphSearch.Closure | Rubik_2x2x2.py:363-382 | when every stored state has been expanded without meeting a goal, every move from an expanded state leads to a state equal to an expanded one |
| GraphSearch.ListsApart | Rubik_2x2x2.py:378-382 | OPEN and CLOSED together list valid entries with no two equal states, so each list is duplicate-free and no state is on both |
| GraphSearch.CleanAt | Rubik_2x2x2.py:373 | from a root with at least 24 space-free tiles, every stored state is too, so no move in the search raises |
| GraphSearch.ChainLeads | Rubik_2x2x2.py:415-420 | the parent chain of any stored state runs back to the root, each entry produced from the next by its recorded move, and then continues with the root's own chain |
| GraphSearch.FifoOrder | Rubik_2x2x2.py:412 | with a constant `h`, sorting leaves OPEN in insertion order, so the search is breadth-first |

## Left out

- `getConfiguration` and the `__main__` driver (command-line parsing, printing, timing) are I/O.
- `toGrid` is display only.
- `VERBOSE` printing is output only.
- The global failure and call counters of `backtrack` (`increment`) are left out. They are statistics only.
- The node counters of `graphsearch` (`inc_NodeCount`) are returned by `GraphSearch.Search` as per-call outputs instead of global variables.
- `shuffle`'s `random.randint` draws are a parameter of `CubeState.Shuffle`: the list of move indices drawn.
- The heuristic `h` of `graphsearch` is a parameter. Which `h` the driver passes is part of the driver.
- `copy.deepcopy` is not modelled. Values are immutable, so applying a move can never change the state it is applied to.
- Backtracking.IterativeDeep: runs at most `fuel` rounds and reports `GaveUp` after that, because the source loop need not stop (a solved head, or a bound that never admits a solution). Termination over the whole cube graph is not proved.
- GraphSearch.Search: runs at most `fuel` rounds and reports `OutOfFuel` after that. Showing that OPEN empties or a goal is reached needs the bound on reachable cube states, which is not proved. Nor is it proved that the breadth-first path is shortest. Its contract describes the expanded states as distinct, each a move away from an earlier one, with no goal before the last. The order of the search is stated one round at a time by `GraphSearch.Round`: the head of OPEN is expanded, its children are stored in rule-table order, and OPEN is re-sorted stably by `h`. That order is not restated for the run as a whole.
- CubeState.TurnSpec: the position-by-position rearrangement and the unchanged label multiset are stated only for states without spaces in their tiles. Every state the program builds is space-free.
- CubeState.EqIsTileEquality: equality is reduced to tile equality only for states whose printed form strips to their tiles. Those are all the states the program builds.
- Backtracking.NoCrash: stated for a head with at least 24 space-free tiles, which covers every state built by the constructor with a full configuration or by a move.
