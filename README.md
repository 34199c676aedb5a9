# The Witness (Rust) — discrete core in Dafny

The program is a line-tracing puzzle in the style of "The Witness". A puzzle
is a graph:

- **dots** are the nodes and **lines** are the edges, each stored as the pair
  of its endpoints;
- **panes** are the faces of the grid, and each pane keeps a list of its
  neighbours (`pane_nears`), every neighbour tagged with a line;
- some dots are **start dots** and some are **end dots**;
- three sparse maps hold the **constraints** (complexities): a hexagon on a dot
  or a line means the path must visit it, a break on a line means the path must
  avoid it, and a coloured square on a pane means every region that holds
  squares must hold squares of one colour only.

The player traces a path from a start dot. When they click, the path is judged.
An editor lets the puzzle author toggle constraints on dots, lines and panes.

This project models the four discrete parts of the program and proves
properties of them. Each part is one Dafny module.

- `PuzzleGraph` (`puzzle.dfy`) covers `src/puzzle_logic/puzzle.rs`:
  - the index types, edge-node incidence (`LineIndex::contains`) and the
    constraint enums;
  - the index part of `Puzzle::default`, written both as the imperative
    construction (`DefaultPuzzle` and its loops) and as the closed form
    `DefaultPuzzleSpec` that the construction is proved to produce;
  - structural facts about the 5 × 5 default grid;
  - the `pane_nears` line labels: as written, and a corrected version (see
    Findings).
- `SolutionChecker` (`solution_checker.dfy`) covers
  `src/puzzle_logic/solution_checker.rs`:
  - the flood fill `find_components` over an array of colours with an explicit
    stack, proved to yield a component split of the panes;
  - the four judging stages and `check_solution`;
  - lemmas that the components are the reachability classes of the cut pane
    graph;
  - the repository's own test: one component on the default puzzle with an
    empty path.
- `SolutionManager` (`solution_manager.dfy`) covers
  `src/puzzle_logic/solution_manager.rs`:
  - the tracer as a class whose `dot_path` and `line_path` are two stacks;
  - `clear`, `start_from`, `move_to_line`, `move_to_dot`, `last_dot`,
    `last_line_while_at_line`, `click` and the discrete skeleton of
    `update_mouse`;
  - the trace steps as pure functions on a `Trace` value, with the chain
    invariant and the lemmas that backtracking is undo;
  - a proof that every chain over puzzle lines that never turns back on
    itself can be traced by some sequence of moves.
- `Editor` (`editor.dfy`) covers `EditorApp::click` in `src/gui/editor.rs`,
  the remove-or-insert toggle on the three constraint maps.

Where the code and its description disagree, the model follows the code:

- `LineComplexity` is declared in `puzzle.rs:75-77` with `BlackHexagon`
  only, but the checker, the tracer and the editor all use
  `LineComplexity::LineBreak`. The model gives it both variants.
- `check_correctness` panics on an empty dot path. The model makes that a
  precondition, which every caller meets. `click` reaches `check_solution`
  only while solving, and while solving the trace is drawn, so its dot path
  holds at least the start dot. (`clear` empties the paths but also ends
  solving.)

## Model

| member | source | states |
|---|---|---|
| PuzzleGraph.ContainsIgnoresOrder | src/puzzle_logic/puzzle.rs:58-60 | a line contains a dot iff the dot is one of its two endpoints, whichever order they are stored in |
| PuzzleGraph.CreateDots | src/puzzle_logic/puzzle.rs:131-143 | the dot loop pushes 25 dots and numbers dot (x, y) as x * 5 + y in `dots_indexes[x][y]` |
| PuzzleGraph.CreateHorizontalLines | src/puzzle_logic/puzzle.rs:152-161 | the 20 horizontal lines are pushed x-major; `horizontal_lines[y][x]` joins (x, y) to (x + 1, y) |
| PuzzleGraph.CreateVerticalLines | src/puzzle_logic/puzzle.rs:162-171 | the 20 vertical lines follow the horizontal ones, y-major; `vertical_lines[y][x]` joins (x, y) to (x, y + 1) |
| PuzzleGraph.PushPaneNears | src/puzzle_logic/puzzle.rs:188-203 | pane (x, y) gets its neighbours in the order left, down, right, up, present only inside the grid, each with the line the code records |
| PuzzleGraph.CreatePaneNears | src/puzzle_logic/puzzle.rs:174-205 | the pane loop creates 16 panes, and pane y * 4 + x holds the neighbour list of pane (x, y) |
| PuzzleGraph.DefaultListAt | src/puzzle_logic/puzzle.rs:176-205 | pane (x, y) is pane number y * 4 + x of the 16, and its entry in the default `pane_nears` is its as-written list |
| PuzzleGraph.DefaultPuzzle | src/puzzle_logic/puzzle.rs:118-243 | the index structure `Puzzle::default` builds is exactly the closed form `DefaultPuzzleSpec` |
| PuzzleGraph.DefaultCounts | src/puzzle_logic/puzzle.rs:133-217 | 5 * 5 + 1 dots with the end dot last (index 25); 2 * 5 * 4 grid lines and then the end line from the end dot to dot (4, 4); 16 panes and 16 neighbour lists |
| PuzzleGraph.DefaultLinesWellFormed | src/puzzle_logic/puzzle.rs:152-217 | every default line joins two valid, distinct dots, either one grid step apart or the end dot and the corner |
| PuzzleGraph.DefaultLineShape | src/puzzle_logic/puzzle.rs:152-171 | horizontal line k starts at dot k and ends 5 dots on; vertical line 20 + k starts at dot (k % 5, k / 5) and ends at the next dot up |
| PuzzleGraph.DefaultLinesDistinct | src/puzzle_logic/puzzle.rs:152-217 | no line appears twice in the default line list |
| PuzzleGraph.AsWrittenFind | src/puzzle_logic/puzzle.rs:188-203 | for each grid neighbour of pane (x, y), a position in its list that holds that neighbour |
| PuzzleGraph.AsWrittenNeighbours | src/puzzle_logic/puzzle.rs:188-203 | pane (x, y) lists exactly the panes one grid step left, down, right or up of it |
| PuzzleGraph.DefaultNearsInRange | src/puzzle_logic/puzzle.rs:176-204 | every neighbour index in the default `pane_nears` is below the pane count |
| PuzzleGraph.AsWrittenNeighbourBack | src/puzzle_logic/puzzle.rs:188-203 | if pane (x, y) lists pane q, then q is a pane and lists (x, y) back, at the returned position |
| PuzzleGraph.DefaultNearBack | src/puzzle_logic/puzzle.rs:176-205 | the pane at position j of pane a's default list is a pane that lists a at the returned position |
| PuzzleGraph.DefaultNearsSymmetric | src/puzzle_logic/puzzle.rs:188-203 | the default neighbour relation is symmetric on pane indices |
| PuzzleGraph.DefaultNeighbourCount | src/puzzle_logic/puzzle.rs:188-203 | a corner pane has 2 neighbours, another border pane 3 and an interior pane 4 |
| PuzzleGraph.DefaultEndpointsAndConstraints | src/puzzle_logic/puzzle.rs:207-235 | the start dots are [dot (0, 0)], the end dots are [the end dot], the only constraint is a hexagon on dot 2, and the line and pane maps are empty |
| PuzzleGraph.AsWrittenPaneZero | src/puzzle_logic/puzzle.rs:188-203 | as written, pane (0, 0) lists pane 1 through its own bottom side and pane 4 through its own left side, and its bottom side is no side of pane 1 |
| PuzzleGraph.AsWrittenPaneOne | src/puzzle_logic/puzzle.rs:188-203 | as written, pane (1, 0) lists panes 0 and 2 both through its own bottom side and pane 5 through its own left side |
| PuzzleGraph.AsWrittenNotSymmetric | src/puzzle_logic/puzzle.rs:188-203 | the default labels are not symmetric: pane 0 lists pane 1 through a line through which pane 1 does not list pane 0 |
| PuzzleGraph.SeparatingSameNeighbours | src/puzzle_logic/puzzle.rs:188-203 | the corrected lists name the same neighbours in the same order as the code |
| PuzzleGraph.SeparatingLabelsBorder | src/puzzle_logic/puzzle.rs:188-203 | every corrected label is a side of both panes it stands between |
| PuzzleGraph.SeparatingEntries | src/puzzle_logic/puzzle.rs:188-203 | the entries of a corrected list are exactly (shared side, neighbour) for each grid neighbour |
| PuzzleGraph.SeparatingBack | src/puzzle_logic/puzzle.rs:188-203 | the entry a pane records for a neighbour is recorded back, with the same line, by the neighbour |
| PuzzleGraph.SeparatingLabelsSymmetric | src/puzzle_logic/puzzle.rs:188-203 | the corrected `pane_nears` is in range and symmetric in pane and line together |
| SolutionChecker.PushIfUnseen | src/puzzle_logic/solution_checker.rs:124-130 | one neighbour entry: an unseen neighbour behind a line off the path is coloured 1 and pushed, and nothing seen becomes unseen; the flood-fill invariant holds |
| SolutionChecker.VisitNeighbours | src/puzzle_logic/solution_checker.rs:124-131 | the inner loop pushes each unseen neighbour whose line is off the path; afterwards every uncut neighbour of the placed pane has been seen |
| SolutionChecker.PopAndPlace | src/puzzle_logic/solution_checker.rs:121-123 | the pop takes the top of the stack, colours it 2 and appends it to the last component, and nothing else changes colour |
| SolutionChecker.PlaceTop | src/puzzle_logic/solution_checker.rs:121-131 | one turn of the pop loop appends the popped pane to the last component and leaves the others alone, keeps the flood-fill invariant and strictly decreases (unseen panes, stack height) |
| SolutionChecker.StartSeeds | src/puzzle_logic/solution_checker.rs:116-119 | a search starts from the lowest pane not yet placed, so every lower pane is already placed in an earlier component |
| SolutionChecker.ExploreFrom | src/puzzle_logic/solution_checker.rs:116-132 | a search from an unplaced pane appends exactly one new component, starting with that pane, keeps the earlier components as they were, and leaves that pane and all lower ones placed |
| SolutionChecker.FindComponents | src/puzzle_logic/solution_checker.rs:105-136 | the components split the panes: each is non-empty, each pane is in exactly one of them, each is listed once, each starts with the lowest pane no earlier component holds, each member is reachable from its component's first pane, and every uncut adjacency leads to the same or an earlier component |
| SolutionChecker.NewChecker | src/puzzle_logic/solution_checker.rs:29-39 | construction fails, with `Incomplete`, exactly when the tracer is not at a dot; otherwise it keeps the paths and the component split |
| SolutionChecker.CheckCorrectness | src/puzzle_logic/solution_checker.rs:40-50 | Ok iff the last dot of the path is an end dot; otherwise `Incomplete` |
| SolutionChecker.CheckDots | src/puzzle_logic/solution_checker.rs:51-63 | Ok iff every hexagon dot is on the dot path; a `DotError` names a constrained dot off the path |
| SolutionChecker.CheckLines | src/puzzle_logic/solution_checker.rs:64-81 | Ok iff every hexagon line is on the line path and no broken line is; a `LineError` names a violating line |
| SolutionChecker.ComplexitiesMembers | src/puzzle_logic/solution_checker.rs:85-86 | the `filter_map` list holds the constraint of every constrained pane of the component and nothing else |
| SolutionChecker.CountSquares | src/puzzle_logic/solution_checker.rs:88-96 | the count map has a key for each colour that occurs, and holds that colour's positive count |
| SolutionChecker.TwoColours | src/puzzle_logic/solution_checker.rs:97-99 | with two colours, more than one key means both colours are present, and the converse |
| SolutionChecker.MixedIffTwoColours | src/puzzle_logic/solution_checker.rs:84-99 | a component's squares have more than one colour iff two of its panes hold squares of different colours |
| SolutionChecker.CheckPanes | src/puzzle_logic/solution_checker.rs:82-102 | Ok iff no component holds squares of two colours; otherwise `PaneError`; unconstrained panes do not count |
| SolutionChecker.CheckSolution | src/puzzle_logic/solution_checker.rs:19-26 | the stages run as construction, correctness, dots, lines, panes; the first failing stage decides the error, and Ok means every stage passed |
| SolutionChecker.ReachableSymmetric | src/puzzle_logic/solution_checker.rs:121-131 | when uncut adjacencies go both ways, reachability is symmetric |
| SolutionChecker.ReachableTransitive | src/puzzle_logic/solution_checker.rs:121-131 | reachability through uncut adjacencies is transitive |
| SolutionChecker.MutuallyLinkedSameComponent | src/puzzle_logic/solution_checker.rs:121-131 | two panes adjacent both ways through lines off the path are in the same component |
| SolutionChecker.WalkStaysInComponent | src/puzzle_logic/solution_checker.rs:121-131 | under symmetric links, a walk that starts in a component ends in it |
| SolutionChecker.ComponentIsReachRest | src/puzzle_logic/solution_checker.rs:116-131 | for any neighbour lists, component k holds exactly the panes reachable from its first pane that no earlier component holds |
| SolutionChecker.SplitUnique | src/puzzle_logic/solution_checker.rs:105-136 | two component splits of the same neighbour lists and path have the same number of components with the same members, component by component, so the split is fixed by the graph and the path |
| SolutionChecker.RegionsAgree | src/puzzle_logic/solution_checker.rs:82-102 | splits with the same members component by component agree on whether some component holds squares of two colours |
| SolutionChecker.JudgedAgree | src/puzzle_logic/solution_checker.rs:19-26 | any two verdicts the checker may give on the same puzzle and trace agree on Ok, on `Incomplete`, on `PaneError`, on a dot error and on a line error; only the named dot or line may differ |
| SolutionChecker.FirstSeedIsZero | src/puzzle_logic/solution_checker.rs:111-119 | with at least one pane, the first component starts with pane 0 |
| SolutionChecker.ComponentIsReachableClass | src/puzzle_logic/solution_checker.rs:105-136 | under symmetric links, a pane's component is exactly the set of panes reachable from it |
| SolutionChecker.LabelsGiveSymmetricLinks | src/puzzle_logic/solution_checker.rs:124-127 | line-symmetric neighbour lists give symmetric uncut adjacency for every path |
| SolutionChecker.UncutNeighboursShareComponent | src/puzzle_logic/solution_checker.rs:121-131 | with line-symmetric neighbour lists, panes adjacent through a line off the path land in the same component |
| SolutionChecker.EmptyPathSymmetricLinks | src/puzzle_logic/solution_checker.rs:124-127 | with an empty path, pane-index symmetry is enough for symmetric adjacency |
| SolutionChecker.DefaultAllReachable | src/puzzle_logic/solution_checker.rs:142-149 | with no line cut, every default pane is reachable from pane 0 |
| SolutionChecker.DefaultEmptyPathOneComponent | src/puzzle_logic/solution_checker.rs:142-149 | any component split of the default panes with an empty path is a single component of all 16 panes |
| SolutionChecker.DefaultEmptyPathComponents | src/puzzle_logic/solution_checker.rs:143-149 | the flood fill on the default puzzle with an empty path returns one component whose size is the pane count |
| SolutionChecker.AsWrittenWallLinks | src/puzzle_logic/puzzle.rs:188-203 | as written, with the four vertical lines on dot column 1 on the path, pane 0 is still linked to pane 1 and pane 1 to pane 0 |
| SolutionChecker.AsWrittenWallLeaks | src/puzzle_logic/puzzle.rs:188-203 | as written, the four vertical lines on dot column 1 do not cut pane 0 from pane 1: every component split puts them together |
| SolutionChecker.SeparatingLinkIff | src/puzzle_logic/puzzle.rs:188-203 | with corrected labels, a pane keeps an adjacency iff it is a grid neighbour whose shared side is off the path |
| SolutionChecker.BehindWallStep | src/puzzle_logic/solution_checker.rs:121-131 | with corrected labels and any path that holds the four vertical lines on dot column 1, an uncut step from pane column 0 stays in pane column 0 |
| SolutionChecker.WalkStaysBehindWall | src/puzzle_logic/solution_checker.rs:121-131 | with corrected labels and any path that holds that wall, a walk from pane column 0 ends in pane column 0 |
| SolutionChecker.WallUnreachable | src/puzzle_logic/solution_checker.rs:121-131 | with corrected labels and any path that holds that wall, pane 1 is not reachable from pane 0 |
| SolutionChecker.SeparatingWallSeparates | src/puzzle_logic/solution_checker.rs:105-136 | with corrected labels and any path that holds that wall, no component holds both pane 0 and pane 1 |
| SolutionChecker.AsWrittenTraceReach | src/puzzle_logic/puzzle.rs:188-203 | as written, along the trace through dots 0, 5, 6, 7, 8, 9, 14, 19, 24, 25 pane 1 is still reachable from pane 0, through panes 4, 5, 6 and 2 |
| SolutionChecker.AsWrittenTraceLeaks | src/puzzle_logic/puzzle.rs:188-203 | as written, every component split for that trace puts panes (0, 0) and (1, 0) together in the first component |
| SolutionChecker.SeparatingTraceSeparates | src/puzzle_logic/solution_checker.rs:105-136 | with corrected labels, no component for that trace holds both pane (0, 0) and pane (1, 0) |
| SolutionManager.StepToLine | src/puzzle_logic/solution_manager.rs:191-201 | moving onto a line keeps a chain from the same start dot, now on a line, and that line is the last one |
| SolutionManager.StepToDot | src/puzzle_logic/solution_manager.rs:168-175 | moving onto a dot keeps a chain from the same start dot, now at a dot, and that dot is the last one |
| SolutionManager.LeaveAndReturn | src/puzzle_logic/solution_manager.rs:155-202 | leaving a dot onto a new line and coming back to the dot restores both paths exactly |
| SolutionManager.ArriveAndReturn | src/puzzle_logic/solution_manager.rs:155-202 | reaching a new dot and stepping back onto the line just taken restores both paths exactly |
| SolutionManager.RetraceLastLine | src/puzzle_logic/solution_manager.rs:155-202 | walking the last line back to its near dot removes that line and the far dot |
| SolutionManager.CrossLine | src/puzzle_logic/solution_manager.rs:155-202 | walking a new line from end to end pushes the line and its far dot |
| SolutionManager.ApplySteps | src/puzzle_logic/solution_manager.rs:295-358 | any sequence of moves the geometry can choose, each leaving only onto a puzzle line through the current dot, keeps the trace a chain from the same start dot over puzzle lines |
| SolutionManager.OneStep | src/puzzle_logic/solution_manager.rs:295-358 | a move followed by more moves fits, and ends where the rest ends from the trace the move leads to, whenever the move fits and the rest fits after it |
| SolutionManager.StepsAppend | src/puzzle_logic/solution_manager.rs:295-358 | moves that fit followed by moves that fit where the first ones end fit as one sequence, and end in the same place |
| SolutionManager.ChainIsTraced | src/puzzle_logic/solution_manager.rs:155-250 | every chain at a dot over puzzle lines that never steps straight back is what some fitting sequence of moves (leave onto each line, arrive at its far end) traces from its start dot |
| SolutionManager.WallTraceIsTraced | src/puzzle_logic/solution_manager.rs:143-250 | the trace through dots 0, 5, 6, 7, 8, 9, 14, 19, 24, 25 of the default puzzle starts at its start dot, ends at its end dot and is what a fitting sequence of moves traces |
| SolutionManager.WiggleRestores | src/puzzle_logic/solution_manager.rs:155-202 | any number of leave-and-return moves around the current dot leaves the trace as it was |
| SolutionManager.PuzzleSolutionManager.constructor | src/puzzle_logic/solution_manager.rs:36-47 | a new tracer has empty paths, is not at a dot, has a zero offset, and neither solves nor draws |
| SolutionManager.PuzzleSolutionManager.Clear | src/puzzle_logic/solution_manager.rs:137-142 | both paths become empty and solving and drawing stop; the rest is unchanged |
| SolutionManager.PuzzleSolutionManager.StartFrom | src/puzzle_logic/solution_manager.rs:143-153 | for a start dot: the dot path is [that dot], the line path is empty, the tracer is at the dot with a zero offset, solving and drawing |
| SolutionManager.PuzzleSolutionManager.LastDot | src/puzzle_logic/solution_manager.rs:204-206 | the last dot is on the dot path and, on a line, is an end of the last line |
| SolutionManager.PuzzleSolutionManager.LastLineWhileAtLine | src/puzzle_logic/solution_manager.rs:207-215 | the last line is on the line path and contains the last dot |
| SolutionManager.PuzzleSolutionManager.MoveToDot | src/puzzle_logic/solution_manager.rs:155-176 | from a line to one of its ends: backtracking pops the last line, otherwise the dot is pushed; now at a dot with a zero offset; the invariant holds |
| SolutionManager.PuzzleSolutionManager.MoveToLine | src/puzzle_logic/solution_manager.rs:178-202 | from a dot to a puzzle line through it: retracing the last line pops the last dot, otherwise the line is pushed; now on a line; the invariant, including that every traced line is a puzzle line, holds |
| SolutionManager.PuzzleSolutionManager.Click | src/puzzle_logic/solution_manager.rs:260-286 | while solving the result is false and the verdict is that of `check_solution`; Ok keeps the trace and ends solving, an error clears the paths and keeps the offset; otherwise the first start dot under the mouse starts a trace with a zero offset and the result is true, and with none nothing changes |
| SolutionManager.PuzzleSolutionManager.TakeStep | src/puzzle_logic/solution_manager.rs:300-352 | one move of `update_mouse` through `move_to_line` or `move_to_dot`, leaving only onto a puzzle line through the last dot as `get_near_line_on_dot` picks: the trace becomes the move applied to it, and solving and drawing go on |
| SolutionManager.PuzzleSolutionManager.UpdateMouse | src/puzzle_logic/solution_manager.rs:288-360 | when not solving nothing changes; while solving the trace becomes the result of the chosen moves, each onto a puzzle line, and solving goes on |
| Editor.Toggle | src/gui/editor.rs:144-146 | a present key is removed, an absent one is added with the given value, and every other key keeps its entry |
| Editor.HexagonOnDot | src/gui/editor.rs:142-147 | the Hexagon tool on a dot: a constrained dot loses its constraint, an unconstrained one gets a hexagon |
| Editor.HexagonOnLine | src/gui/editor.rs:148-153 | the Hexagon tool on a line removes any constraint, a break included; an unconstrained line gets a hexagon |
| Editor.LineBreakOnLine | src/gui/editor.rs:159-164 | the LineBreak tool on a line removes any constraint, a hexagon included; an unconstrained line gets a break |
| Editor.SquareOnPane | src/gui/editor.rs:171-176 | the Square tool on a pane removes a square of any colour; an unconstrained pane gets a square of the selected colour |
| Editor.ClickNoRule | src/gui/editor.rs:139-178 | a tool with no rule for the object (no object, Hexagon on a pane, LineBreak on a dot or pane, Square on a dot or line) changes nothing |
| Editor.ClickLocality | src/gui/editor.rs:138-179 | only the map of the selected object's kind changes, only at the selected key, and the graph is untouched |
| Editor.ClickTwiceRestores | src/gui/editor.rs:138-179 | two identical clicks restore the puzzle whenever the object's constraint, if any, is the one the tool adds |
| Editor.ClickTwiceReplaces | src/gui/editor.rs:148-153 | two Hexagon clicks on a broken line leave a hexagon there, so the puzzle is not restored |
| Editor.ClickThriceIsOnce | src/gui/editor.rs:138-179 | three identical clicks always equal one |
| Editor.EditorApp.constructor | src/gui/editor.rs:63-71 | a new editor has nothing selected, the Hexagon tool and black squares |
| Editor.EditorApp.Click | src/gui/editor.rs:138-179 | the puzzle becomes the result of the toggle rule for the selected tool, object and colour; the selection is kept |

## Left out

- Floating point: dot and pane positions, `cell_size`, `line_width`, the
  colours of the drawing, `Dot` arithmetic, `compare_dots`, `get_projection`,
  `get_line_length`, the leave radius, the dot-leave margin and
  `line_progress`. The model keeps only the index structure of the graph.
- `get_near_line_on_dot` chooses, among the puzzle lines through the current
  dot, the one nearest to the mouse direction. The model takes the chosen
  moves as a parameter instead, and requires only that each leaves onto a
  puzzle line through the current dot.
- SolutionManager.PuzzleSolutionManager.UpdateMouse: the source re-enters
  itself with a scaled mouse offset after each move. The model runs a loop
  over the moves the geometry would choose (`Step` values), so it does not
  model which moves a given mouse offset produces.
- SolutionManager.PuzzleSolutionManager.UpdateMouse: the source holds the
  tracer short of the far end of a broken line. The model's moves may cross
  such a line; the checker still rejects the trace.
- SolutionManager.PuzzleSolutionManager.UpdateMouse: it does not state the
  offset `dot_pos` after a move (the source sets a float margin there).
- SolutionManager.PuzzleSolutionManager.Click: the 0.045 start radius is
  replaced by a predicate `nearMouse` that says which dots are under the mouse.
  The `println!` of the verdict is output only; the model returns the verdict
  instead.
- `get_lines_to_draw`, `get_start_dot_dot_draw`, the read-only accessors and
  `get_dot` serve drawing only.
- `HashMap` iteration order in `check_dots`, `check_lines` and
  `check_panes` is unspecified. The model picks an arbitrary remaining key.
  It states which errors may be reported, not which of several is reported
  first.
- `DotIndex` and `PaneIndex` are `u16`; the `as u16` casts would truncate
  past 65535 panes or dots. The model uses unbounded naturals, and the
  default puzzle stays far below the limit.
- `find_components` indexes `color` with the neighbour indices in
  `pane_nears`. The model requires them to be in range (`NearsInRange`),
  which the source needs to avoid a panic, and proves it for the default puzzle.
- The manager borrows the puzzle, and the editor holds it by mutable
  reference. The model keeps the puzzle as a value inside each, so aliasing
  between them is not modelled.
- `check_solution` reads four fields of the tracer. The model passes those
  four values, so the checker does not depend on the tracer module.
- Everything in the editor except `click`: mouse hit-testing
  (`update_selection`), `render_ui`, `render_puzzle`, and the buttons that
  set the tool and colour. The rendering code in `src/gui/common.rs` and
  `src/gui/solver.rs` is not part of this model either.
- `src/main.rs` and `src/gui.rs` are program wiring. The randomised test in
  `src/puzzle_logic.rs` depends on a random number generator and float mouse
  offsets.
- Editor.ClickTwiceRestores: clicking twice restores the puzzle only when the
  object is unconstrained or already holds the tool's own constraint. A
  Hexagon click on a broken line, or a Square click on a square of the other
  colour, removes the constraint, and the second click then adds the tool's
  own (Editor.ClickTwiceReplaces). Three clicks always equal one.
- SolutionChecker.UncutNeighboursShareComponent: closure under uncut
  adjacency is proved for line-symmetric neighbour lists. With only
  pane-index symmetry, as in the default puzzle, a pane can list a neighbour
  through a line off the path while the neighbour lists it back through a
  line on the path. The two panes can then fall into different components.

## Findings

| source | as written | input that shows it | evidently intended | confidence | as-written member | corrected member |
|---|---|---|---|---|---|---|
| src/puzzle_logic/puzzle.rs:188-203 | `Puzzle::default` tags the left and right neighbours of pane (x, y) with `horizontal_lines[y][x]`, the pane's bottom side. It tags the down and up neighbours with `vertical_lines[y][x]`, the pane's left side. Neither line is the side the two panes share, so cutting the path along a shared side does not separate them. | the trace through dots 0, 5, 6, 7, 8, 9, 14, 19, 24, 25 of the default puzzle, which the tracer can draw from the start dot to the end dot: `find_components` still puts panes (0, 0) and (1, 0) in its first component. So does a line path of exactly the four vertical lines on dot column 1 (dots 5 to 9) |  each adjacency tagged with the line the two panes share: left `vertical_lines[y][x]`, down `horizontal_lines[y][x]`, right `vertical_lines[y][x + 1]`, up `horizontal_lines[y + 1][x]` | high; not executed | PuzzleGraph.AsWrittenNotSymmetric, SolutionChecker.AsWrittenTraceLeaks, SolutionChecker.AsWrittenWallLeaks | PuzzleGraph.SeparatingLabelsSymmetric, SolutionChecker.SeparatingTraceSeparates, SolutionChecker.SeparatingWallSeparates |

`DefaultPuzzle` builds the labels as written. `SeparatingPaneNears` is the
corrected `pane_nears`, and the checker's theorems hold for any neighbour
lists. For the corrected lists, the model proves three things:

- the labels are symmetric;
- an adjacency survives exactly when the shared side is off the path;
- any path that holds the wall on dot column 1, the trace above included,
  separates pane column 0 from the rest.

`WallTraceIsTraced` shows that the tracer can draw that trace on the default
puzzle. On the default puzzle the trace then fails `check_dots` first, because
it misses the hexagon on dot 2. The model proves the leak in the components
the checker computes. It states no verdict for a puzzle with squares on both
sides of the wall.
