/** The discrete layer of the path tracer: the dot and line paths kept as two
    stacks, the flags saying whether the tracer rests on a dot, whether a
    solution is being traced and whether one is shown, and the click that
    either starts a trace or submits it to the validator.  The floating-point
    geometry that decides when the tracer leaves or reaches a dot is replaced by
    the choices it makes. */
module SolutionManager {
  import opened PuzzleGraph
  import SolutionChecker

  /** An offset from the current dot, in the puzzle's local coordinates. */
  datatype Offset = Offset(x: real, y: real)

  const ZERO: Offset := Offset(0.0, 0.0)

  /** The state of a trace: dots visited, lines taken, and whether the tracer
      rests on the last dot (rather than on the last line). */
  datatype Trace = Trace(dotPath: seq<DotIndex>, linePath: seq<LineIndex>, nowAtDot: bool)

  /** A well-formed trace: a non-empty chain of dots joined by lines.  At a dot
      there is one dot more than lines, on a line as many dots as lines, and
      line i joins dot i to dot i + 1 (when there is one). */
  predicate Chain(t: Trace) {
    && t.dotPath != []
    && |t.dotPath| == |t.linePath| + (if t.nowAtDot then 1 else 0)
    && (forall i :: 0 <= i < |t.linePath| ==> t.linePath[i].Contains(t.dotPath[i]))
    && (forall i :: 0 <= i < |t.linePath| && i + 1 < |t.dotPath| ==> t.linePath[i].Contains(t.dotPath[i + 1]))
  }

  /** Every line of the trace is one of the puzzle's lines. */
  predicate OnLines(t: Trace, lines: seq<LineIndex>) {
    forall i :: 0 <= i < |t.linePath| ==> t.linePath[i] in lines
  }

  function Last<T>(s: seq<T>): T
    requires s != []
  {
    s[|s| - 1]
  }

  /** `move_to_line` on a trace: retracing the last line pops the last dot,
      any other line through the last dot is pushed. */
  function StepToLine(t: Trace, line: LineIndex): (r: Trace)
    requires Chain(t) && t.nowAtDot && line.Contains(Last(t.dotPath))
    ensures Chain(r) && !r.nowAtDot && r.dotPath[0] == t.dotPath[0]
    ensures Last(r.linePath) == line
    ensures forall l :: l in r.linePath ==> l in t.linePath || l == line
  {
    if t.linePath != [] && Last(t.linePath) == line then
      Trace(t.dotPath[..|t.dotPath| - 1], t.linePath, false)
    else
      Trace(t.dotPath, t.linePath + [line], false)
  }

  /** `move_to_dot` on a trace: arriving back at the last dot pops the last
      line, arriving at the line's other end pushes the dot. */
  function StepToDot(t: Trace, dot: DotIndex): (r: Trace)
    requires Chain(t) && !t.nowAtDot && Last(t.linePath).Contains(dot)
    ensures Chain(r) && r.nowAtDot && r.dotPath[0] == t.dotPath[0]
    ensures Last(r.dotPath) == dot
    ensures forall l :: l in r.linePath ==> l in t.linePath
  {
    if dot == Last(t.dotPath) then
      Trace(t.dotPath, t.linePath[..|t.linePath| - 1], true)
    else
      Trace(t.dotPath + [dot], t.linePath, true)
  }

  // ---------------------------------------------------------------------------
  // Backtracking is undo

  /** Stepping onto a new line and straight back to the dot restores the trace. */
  lemma LeaveAndReturn(t: Trace, line: LineIndex)
    requires Chain(t) && t.nowAtDot && line.Contains(Last(t.dotPath))
    requires t.linePath == [] || Last(t.linePath) != line
    ensures StepToDot(StepToLine(t, line), Last(t.dotPath)) == t
  {
    var u := StepToLine(t, line);
    assert u.linePath[..|u.linePath| - 1] == t.linePath;
  }

  /** Reaching a new dot and stepping back onto the line just taken restores the
      trace. */
  lemma ArriveAndReturn(t: Trace, dot: DotIndex)
    requires Chain(t) && !t.nowAtDot && Last(t.linePath).Contains(dot) && dot != Last(t.dotPath)
    ensures StepToLine(StepToDot(t, dot), Last(t.linePath)) == t
  {
    var u := StepToDot(t, dot);
    assert u.dotPath[..|u.dotPath| - 1] == t.dotPath;
  }

  /** Walking back along the last line, from its far dot to its near dot,
      removes that line and that dot from the trace. */
  lemma RetraceLastLine(t: Trace)
    requires Chain(t) && t.nowAtDot && t.linePath != []
    ensures var back := StepToLine(t, Last(t.linePath));
      StepToDot(back, t.dotPath[|t.dotPath| - 2]) ==
        Trace(t.dotPath[..|t.dotPath| - 1], t.linePath[..|t.linePath| - 1], true)
  {
    var n := |t.linePath|;
    assert t.linePath[n - 1].Contains(t.dotPath[n - 1]);
  }

  /** Walking a new line from end to end adds the line and its far dot. */
  lemma CrossLine(t: Trace, line: LineIndex, far: DotIndex)
    requires Chain(t) && t.nowAtDot && line.Contains(Last(t.dotPath)) && line.Contains(far)
    requires t.linePath == [] || Last(t.linePath) != line
    requires far != Last(t.dotPath)
    ensures StepToDot(StepToLine(t, line), far) == Trace(t.dotPath + [far], t.linePath + [line], true)
  {
  }

  // ---------------------------------------------------------------------------
  // Movement chosen by the geometry

  /** One move that the mouse geometry of `update_mouse` makes: leave the
      current dot onto a line through it, or reach one end of the current
      line. */
  datatype Step = Leave(line: LineIndex) | Arrive(atSecond: bool)

  /** The step is one the geometry can choose in trace t on a puzzle with
      these lines: `get_near_line_on_dot` only picks one of them. */
  predicate Fits(t: Trace, s: Step, lines: seq<LineIndex>)
    requires Chain(t)
  {
    match s
    case Leave(line) => t.nowAtDot && line in lines && line.Contains(Last(t.dotPath))
    case Arrive(_) => !t.nowAtDot
  }

  function ApplyStep(t: Trace, s: Step, lines: seq<LineIndex>): (r: Trace)
    requires Chain(t) && Fits(t, s, lines)
    ensures Chain(r) && r.dotPath[0] == t.dotPath[0]
    ensures OnLines(t, lines) ==> OnLines(r, lines)
  {
    match s
    case Leave(line) => StepToLine(t, line)
    case Arrive(atSecond) =>
      var line := Last(t.linePath);
      StepToDot(t, if atSecond then line.second else line.first)
  }

  /** Every step of the sequence fits the trace it is applied to. */
  predicate StepsFit(t: Trace, steps: seq<Step>, lines: seq<LineIndex>)
    requires Chain(t)
    decreases |steps|
  {
    steps == [] || (Fits(t, steps[0], lines) && StepsFit(ApplyStep(t, steps[0], lines), steps[1..], lines))
  }

  /** The trace after a sequence of moves: still a chain from the same start
      dot, and still made of the puzzle's lines. */
  function ApplySteps(t: Trace, steps: seq<Step>, lines: seq<LineIndex>): (r: Trace)
    requires Chain(t) && StepsFit(t, steps, lines)
    ensures Chain(r) && r.dotPath[0] == t.dotPath[0]
    ensures OnLines(t, lines) ==> OnLines(r, lines)
    decreases |steps|
  {
    if steps == [] then t else ApplySteps(ApplyStep(t, steps[0], lines), steps[1..], lines)
  }

  /** One move followed by more moves: they fit, and lead to the same trace,
      exactly when the rest fits the trace the first move leads to. */
  lemma OneStep(t: Trace, s: Step, rest: seq<Step>, lines: seq<LineIndex>)
    requires Chain(t) && Fits(t, s, lines) && StepsFit(ApplyStep(t, s, lines), rest, lines)
    ensures StepsFit(t, [s] + rest, lines)
    ensures ApplySteps(t, [s] + rest, lines) == ApplySteps(ApplyStep(t, s, lines), rest, lines)
  {
    var w := [s] + rest;
    assert w[0] == s && w[1..] == rest;
  }

  /** The same for two moves. */
  lemma TwoSteps(t: Trace, s1: Step, s2: Step, rest: seq<Step>, lines: seq<LineIndex>)
    requires Chain(t) && Fits(t, s1, lines) && Fits(ApplyStep(t, s1, lines), s2, lines)
    requires StepsFit(ApplyStep(ApplyStep(t, s1, lines), s2, lines), rest, lines)
    ensures StepsFit(t, [s1, s2] + rest, lines)
    ensures ApplySteps(t, [s1, s2] + rest, lines) == ApplySteps(ApplyStep(ApplyStep(t, s1, lines), s2, lines), rest, lines)
  {
    var u := ApplyStep(t, s1, lines);
    OneStep(u, s2, rest, lines);
    OneStep(t, s1, [s2] + rest, lines);
    assert [s1] + ([s2] + rest) == [s1, s2] + rest;
  }

  /** Exact undo, over any number of moves: leaving a dot onto a new line
      and reaching the same dot again, repeated, leaves the trace as it was. */
  lemma {:induction false} WiggleRestores(t: Trace, around: seq<LineIndex>, lines: seq<LineIndex>)
    requires Chain(t) && t.nowAtDot
    requires forall i :: 0 <= i < |around| ==> around[i] in lines && around[i].Contains(Last(t.dotPath))
    requires t.linePath == [] || forall i :: 0 <= i < |around| ==> around[i] != Last(t.linePath)
    ensures StepsFit(t, Wiggle(t, around), lines) && ApplySteps(t, Wiggle(t, around), lines) == t
    decreases |around|
  {
    if around != [] {
      var l := around[0];
      var back := Arrive(l.second == Last(t.dotPath));
      assert l.first == Last(t.dotPath) || l.second == Last(t.dotPath);
      LeaveAndReturn(t, l);
      var u := ApplyStep(t, Leave(l), lines);
      assert Fits(u, back, lines) && ApplyStep(u, back, lines) == t;
      WiggleRestores(t, around[1..], lines);
      assert Wiggle(t, around) == [Leave(l), back] + Wiggle(t, around[1..]);
      TwoSteps(t, Leave(l), back, Wiggle(t, around[1..]), lines);
    }
  }

  /** For each line, leave the last dot onto it and come back. */
  function Wiggle(t: Trace, around: seq<LineIndex>): seq<Step>
    requires t.dotPath != []
  {
    if around == [] then []
    else [Leave(around[0]), Arrive(around[0].second == Last(t.dotPath))] + Wiggle(t, around[1..])
  }

  // ---------------------------------------------------------------------------
  // Every chain without a turn back can be traced

  /** Moves concatenate: doing a and then b is doing a + b. */
  lemma {:induction false} StepsAppend(t: Trace, a: seq<Step>, b: seq<Step>, lines: seq<LineIndex>)
    requires Chain(t) && StepsFit(t, a, lines) && StepsFit(ApplySteps(t, a, lines), b, lines)
    ensures StepsFit(t, a + b, lines)
    ensures ApplySteps(t, a + b, lines) == ApplySteps(ApplySteps(t, a, lines), b, lines)
    decreases |a|
  {
    if a == [] {
      assert a + b == b;
    } else {
      var u, ab := ApplyStep(t, a[0], lines), a + b;
      assert ApplySteps(t, a, lines) == ApplySteps(u, a[1..], lines);
      StepsAppend(u, a[1..], b, lines);
      TailOfAppend(a, b);
      assert StepsFit(t, ab, lines) && ApplySteps(t, ab, lines) == ApplySteps(u, ab[1..], lines);
    }
  }

  lemma TailOfAppend<T>(a: seq<T>, b: seq<T>)
    requires a != []
    ensures (a + b)[0] == a[0] && (a + b)[1..] == a[1..] + b
  {
  }

  /** The trace neither stays on a dot nor takes the same line twice in a row. */
  predicate NoTurnBack(t: Trace) {
    && (forall i :: 0 <= i < |t.dotPath| - 1 ==> t.dotPath[i] != t.dotPath[i + 1])
    && (forall i :: 0 <= i < |t.linePath| - 1 ==> t.linePath[i] != t.linePath[i + 1])
  }

  /** For each line of a chain, leave onto it and arrive at its far end. */
  function CrossAll(dots: seq<DotIndex>, lines: seq<LineIndex>): seq<Step>
    requires |dots| == |lines| + 1
    decreases |lines|
  {
    if lines == [] then []
    else
      var l := Last(lines);
      CrossAll(dots[..|dots| - 1], lines[..|lines| - 1]) + [Leave(l), Arrive(l.second == Last(dots))]
  }

  /** A chain at a dot without the last dot and line. */
  function DropLast(t: Trace): (r: Trace)
    requires Chain(t) && t.nowAtDot && t.linePath != []
    ensures Chain(r) && r.nowAtDot && NoTurnBack(t) ==> NoTurnBack(r)
  {
    Trace(t.dotPath[..|t.dotPath| - 1], t.linePath[..|t.linePath| - 1], true)
  }

  /** Leaving onto a new puzzle line and arriving at its far end, as moves. */
  lemma CrossMoves(p: Trace, l: LineIndex, far: DotIndex, lines: seq<LineIndex>)
    requires Chain(p) && p.nowAtDot && l in lines && l.Contains(Last(p.dotPath)) && l.Contains(far)
    requires p.linePath == [] || Last(p.linePath) != l
    requires far != Last(p.dotPath)
    ensures StepsFit(p, [Leave(l), Arrive(l.second == far)], lines)
    ensures ApplySteps(p, [Leave(l), Arrive(l.second == far)], lines) == Trace(p.dotPath + [far], p.linePath + [l], true)
  {
    CrossLine(p, l, far);
    var s1, s2 := Leave(l), Arrive(l.second == far);
    var u := ApplyStep(p, s1, lines);
    assert Fits(u, s2, lines);
    TwoSteps(p, s1, s2, [], lines);
    assert [s1, s2] + [] == [s1, s2];
  }

  /** Crossing the last line of a chain from the chain without it. */
  lemma CrossLast(t: Trace, lines: seq<LineIndex>)
    requires Chain(t) && t.nowAtDot && t.linePath != [] && NoTurnBack(t) && Last(t.linePath) in lines
    ensures var p, l := DropLast(t), Last(t.linePath);
      StepsFit(p, [Leave(l), Arrive(l.second == Last(t.dotPath))], lines) &&
      ApplySteps(p, [Leave(l), Arrive(l.second == Last(t.dotPath))], lines) == t
  {
    var p, l, far := DropLast(t), Last(t.linePath), Last(t.dotPath);
    var n := |t.linePath|;
    assert l.Contains(t.dotPath[n - 1]) && l.Contains(t.dotPath[n]);
    assert n > 1 ==> t.linePath[n - 2] != t.linePath[n - 1];
    assert t.dotPath[n - 1] != t.dotPath[n];
    CrossMoves(p, l, far, lines);
    SplitLast(t.dotPath);
    SplitLast(t.linePath);
  }

  lemma SplitLast<T>(s: seq<T>)
    requires s != []
    ensures s == s[..|s| - 1] + [s[|s| - 1]]
  {
  }

  /** Every chain of puzzle lines at a dot that never turns back is what the
      moves of `update_mouse` make of a trace started on its first dot. */
  lemma {:induction false} ChainIsTraced(t: Trace, lines: seq<LineIndex>)
    requires Chain(t) && t.nowAtDot && OnLines(t, lines) && NoTurnBack(t)
    ensures var t0, steps := Trace([t.dotPath[0]], [], true), CrossAll(t.dotPath, t.linePath);
      StepsFit(t0, steps, lines) && ApplySteps(t0, steps, lines) == t
    decreases |t.linePath|
  {
    if t.linePath == [] {
      assert t.dotPath == [t.dotPath[0]];
    } else {
      var p := DropLast(t);
      assert OnLines(p, lines);
      ChainIsTraced(p, lines);
      TracedExtends(t, lines);
    }
  }

  /** The moves that trace a chain less its last line, followed by crossing that line, trace the chain. */
  lemma TracedExtends(t: Trace, lines: seq<LineIndex>)
    requires Chain(t) && t.nowAtDot && t.linePath != [] && OnLines(t, lines) && NoTurnBack(t)
    requires var p := DropLast(t); var t0, steps := Trace([p.dotPath[0]], [], true), CrossAll(p.dotPath, p.linePath);
      StepsFit(t0, steps, lines) && ApplySteps(t0, steps, lines) == p
    ensures var t0, steps := Trace([t.dotPath[0]], [], true), CrossAll(t.dotPath, t.linePath);
      StepsFit(t0, steps, lines) && ApplySteps(t0, steps, lines) == t
  {
    var t0 := Trace([t.dotPath[0]], [], true);
    var p, l := DropLast(t), Last(t.linePath);
    assert p.dotPath[0] == t.dotPath[0];
    var tail := [Leave(l), Arrive(l.second == Last(t.dotPath))];
    assert CrossAll(t.dotPath, t.linePath) == CrossAll(p.dotPath, p.linePath) + tail;
    assert Last(t.linePath) in lines;
    CrossLast(t, lines);
    StepsAppend(t0, CrossAll(p.dotPath, p.linePath), tail, lines);
  }

  // ---------------------------------------------------------------------------
  // A trace along the wall

  /** The dots of the trace whose lines are `SolutionChecker.WallTrace()`. */
  function WallDots(): seq<DotIndex> {
    [DotAt(0, 0), DotAt(1, 0), DotAt(1, 1), DotAt(1, 2), DotAt(1, 3), DotAt(1, 4),
     DotAt(2, 4), DotAt(3, 4), DotAt(4, 4), END_DOT]
  }

  /** The trace along the wall is a chain that never turns back. */
  lemma WallTraceChain()
    ensures Chain(Trace(WallDots(), SolutionChecker.WallTrace(), true))
    ensures NoTurnBack(Trace(WallDots(), SolutionChecker.WallTrace(), true))
  {
    var d, l := WallDots(), SolutionChecker.WallTrace();
    assert d == [0, 5, 6, 7, 8, 9, 14, 19, 24, 25];
    assert l == [LineIndex(0, 5), LineIndex(5, 6), LineIndex(6, 7), LineIndex(7, 8), LineIndex(8, 9),
                 LineIndex(9, 14), LineIndex(14, 19), LineIndex(19, 24), LineIndex(25, 24)];
    forall i | 0 <= i < 9
      ensures l[i].Contains(d[i]) && l[i].Contains(d[i + 1])
      ensures d[i] != d[i + 1] && (i < 8 ==> l[i] != l[i + 1])
    {
      if i == 0 {
      } else if i == 1 {
      } else if i == 2 {
      } else if i == 3 {
      } else if i == 4 {
      } else if i == 5 {
      } else if i == 6 {
      } else if i == 7 {
      } else {
        assert i == 8;
      }
    }
  }

  /** Every line of the trace along the wall is a line of the default puzzle. */
  lemma WallTraceOnLines()
    ensures OnLines(Trace(WallDots(), SolutionChecker.WallTrace(), true), DefaultPuzzleSpec().lines)
  {
    DefaultHasHLine(0, 0);
    DefaultHasVLine(1, 0);
    DefaultHasVLine(1, 1);
    DefaultHasVLine(1, 2);
    DefaultHasVLine(1, 3);
    DefaultHasHLine(1, 4);
    DefaultHasHLine(2, 4);
    DefaultHasHLine(3, 4);
    DefaultCounts();
  }

  /** The trace along the wall is one the tracer can draw on the default
      puzzle: it starts on the start dot, ends on the end dot and is reached from
      the start by moves of `update_mouse`. */
  lemma WallTraceIsTraced()
    ensures var t, lines := Trace(WallDots(), SolutionChecker.WallTrace(), true), DefaultPuzzleSpec().lines;
      && WallDots()[0] in DefaultPuzzleSpec().startDots && Last(WallDots()) in DefaultPuzzleSpec().endDots
      && StepsFit(Trace([WallDots()[0]], [], true), CrossAll(t.dotPath, t.linePath), lines)
      && ApplySteps(Trace([WallDots()[0]], [], true), CrossAll(t.dotPath, t.linePath), lines) == t
  {
    WallTraceChain();
    WallTraceOnLines();
    ChainIsTraced(Trace(WallDots(), SolutionChecker.WallTrace(), true), DefaultPuzzleSpec().lines);
  }

  // ---------------------------------------------------------------------------
  // The tracer

  class PuzzleSolutionManager {
    const puzzle: Puzzle
    var dotPath: seq<DotIndex>
    var linePath: seq<LineIndex>
    var nowAtDot: bool
    var dotPos: Offset
    var isSolving: bool
    var isDrawingSolution: bool

    function Current(): Trace
      reads this
    {
      Trace(dotPath, linePath, nowAtDot)
    }

    /** Solving implies drawing; a drawn trace is a chain from a start dot;
        otherwise both paths are empty. */
    ghost predicate Valid()
      reads this
    {
      && (isSolving ==> isDrawingSolution)
      && (isDrawingSolution ==> Chain(Current()) && dotPath[0] in puzzle.startDots)
      && (!isDrawingSolution ==> dotPath == [] && linePath == [])
      && OnLines(Current(), puzzle.lines)
    }

    /** `PuzzleSolutionManager::new`. */
    constructor (puzzle: Puzzle)
      ensures Valid()
      ensures this.puzzle == puzzle && dotPath == [] && linePath == []
      ensures !nowAtDot && dotPos == ZERO && !isSolving && !isDrawingSolution
    {
      this.puzzle := puzzle;
      dotPath := [];
      linePath := [];
      nowAtDot := false;
      dotPos := ZERO;
      isSolving := false;
      isDrawingSolution := false;
    }

    /** `clear`: forgets the trace and stops solving and drawing. */
    method Clear()
      modifies this
      ensures Valid()
      ensures dotPath == [] && linePath == [] && !isSolving && !isDrawingSolution
      ensures nowAtDot == old(nowAtDot) && dotPos == old(dotPos)
    {
      dotPath := [];
      linePath := [];
      isSolving := false;
      isDrawingSolution := false;
    }

    /** `start_from`: starts a new trace on a start dot. */
    method StartFrom(startDot: DotIndex)
      requires startDot in puzzle.startDots
      modifies this
      ensures Valid()
      ensures dotPath == [startDot] && linePath == [] && nowAtDot && dotPos == ZERO
      ensures isSolving && isDrawingSolution
    {
      Clear();
      isDrawingSolution := true;
      isSolving := true;
      dotPath := dotPath + [startDot];
      nowAtDot := true;
      dotPos := ZERO;
    }

    /** `last_dot`: the dot the trace last reached. */
    function LastDot(): (r: DotIndex)
      reads this
      requires dotPath != []
      ensures r in dotPath
      ensures Valid() && isDrawingSolution && !nowAtDot ==> linePath[|linePath| - 1].Contains(r)
    {
      dotPath[|dotPath| - 1]
    }

    /** `last_line_while_at_line`: the line the tracer is on. */
    function LastLineWhileAtLine(): (r: LineIndex)
      reads this
      requires !nowAtDot && linePath != []
      ensures r in linePath
      ensures Valid() && isDrawingSolution ==> r.Contains(dotPath[|dotPath| - 1])
    {
      linePath[|linePath| - 1]
    }

    /** `move_to_dot`: from the current line onto one of its ends. */
    method MoveToDot(dot: DotIndex)
      requires Valid() && isSolving && !nowAtDot
      requires LastLineWhileAtLine().Contains(dot)
      modifies this
      ensures Valid() && isSolving && isDrawingSolution
      ensures Current() == StepToDot(old(Current()), dot)
      ensures dotPos == ZERO
    {
      var lastLine := LastLineWhileAtLine();
      var lastDot := dotPath[|dotPath| - 1];
      if dot == lastDot {
        linePath := linePath[..|linePath| - 1];
      } else {
        dotPath := dotPath + [dot];
      }
      nowAtDot := true;
      dotPos := ZERO;
    }

    /** `move_to_line`: from the current dot onto a line through it. */
    method MoveToLine(line: LineIndex)
      requires Valid() && isSolving && nowAtDot
      requires line in puzzle.lines && line.Contains(LastDot())
      modifies this
      ensures Valid() && isSolving && isDrawingSolution
      ensures Current() == StepToLine(old(Current()), line)
      ensures dotPos == old(dotPos)
    {
      var lastDot := LastDot();
      if linePath != [] {
        var lastLine := linePath[|linePath| - 1];
        if lastLine == line {
          dotPath := dotPath[..|dotPath| - 1];
        } else {
          linePath := linePath + [line];
        }
      } else {
        linePath := linePath + [line];
      }
      nowAtDot := false;
    }

    /** `click`.  While solving, the trace is judged: a correct one stays on
        screen with solving over, an incorrect one is cleared; the result is
        false either way.  Otherwise the first start dot under the mouse, as
        `nearMouse` tells, starts a trace and the result is true. */
    method Click(nearMouse: DotIndex -> bool)
      returns (solving: bool, verdict: SolutionChecker.Outcome, ghost components: seq<seq<PaneIndex>>)
      requires Valid() && NearsInRange(puzzle.paneNears)
      modifies this
      ensures Valid()
      ensures old(isSolving) ==> !solving
      ensures old(isSolving) ==>
        SolutionChecker.Judged(puzzle, old(dotPath), old(linePath), old(nowAtDot), components, verdict)
      ensures old(isSolving) && verdict.Ok? ==>
        (Current() == old(Current()) && !isSolving && isDrawingSolution && dotPos == old(dotPos))
      ensures old(isSolving) && verdict.Err? ==>
        (dotPath == [] && linePath == [] && !isSolving && !isDrawingSolution &&
         nowAtDot == old(nowAtDot) && dotPos == old(dotPos))
      ensures !old(isSolving) ==>
        (solving <==> exists i :: 0 <= i < |puzzle.startDots| && nearMouse(puzzle.startDots[i]))
      ensures !old(isSolving) && solving ==>
        exists i :: 0 <= i < |puzzle.startDots| && nearMouse(puzzle.startDots[i]) &&
          (forall j :: 0 <= j < i ==> !nearMouse(puzzle.startDots[j])) &&
          dotPath == [puzzle.startDots[i]] && linePath == [] && nowAtDot && isSolving && isDrawingSolution &&
          dotPos == ZERO
      ensures !old(isSolving) && !solving ==>
        (Current() == old(Current()) && !isSolving && isDrawingSolution == old(isDrawingSolution) &&
         dotPos == old(dotPos))
    {
      verdict, components := SolutionChecker.Ok, [];
      if isSolving {
        verdict, components := SolutionChecker.CheckSolution(puzzle, dotPath, linePath, nowAtDot);
        match verdict {
          case Ok =>
            isSolving := false;
          case Err(_) =>
            Clear();
        }
        return false, verdict, components;
      }
      for i := 0 to |puzzle.startDots|
        invariant forall j :: 0 <= j < i ==> !nearMouse(puzzle.startDots[j])
      {
        var dotIndex := puzzle.startDots[i];
        if nearMouse(dotIndex) {
          StartFrom(dotIndex);
          return true, verdict, components;
        }
      }
      return false, verdict, components;
    }

    /** One move of `update_mouse`: onto the line the geometry picked, or onto
        the end of the current line the tracer has reached. */
    method TakeStep(s: Step)
      requires Valid() && isSolving && Fits(Current(), s, puzzle.lines)
      modifies this
      ensures Valid() && isSolving && isDrawingSolution
      ensures Current() == ApplyStep(old(Current()), s, puzzle.lines)
    {
      match s {
        case Leave(line) =>
          MoveToLine(line);
        case Arrive(atSecond) =>
          var line := LastLineWhileAtLine();
          MoveToDot(if atSecond then line.second else line.first);
      }
    }

    /** `update_mouse`: nothing happens unless solving; while solving, the
        tracer makes the moves the geometry chooses. */
    method UpdateMouse(steps: seq<Step>)
      requires Valid() && (isSolving ==> StepsFit(Current(), steps, puzzle.lines))
      modifies this
      ensures Valid()
      ensures !old(isSolving) ==>
        (Current() == old(Current()) && dotPos == old(dotPos) && !isSolving &&
         isDrawingSolution == old(isDrawingSolution))
      ensures old(isSolving) ==>
        (Current() == ApplySteps(old(Current()), steps, puzzle.lines) && isSolving && isDrawingSolution)
    {
      if !isSolving {
        return;
      }
      var i := 0;
      while i < |steps|
        invariant 0 <= i <= |steps|
        invariant Valid() && isSolving && isDrawingSolution
        invariant StepsFit(Current(), steps[i..], puzzle.lines)
        invariant ApplySteps(old(Current()), steps, puzzle.lines) == ApplySteps(Current(), steps[i..], puzzle.lines)
      {
        assert steps[i..][1..] == steps[i + 1..];
        TakeStep(steps[i]);
        i := i + 1;
      }
    }
  }
}
