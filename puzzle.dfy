/** The puzzle graph: dots (nodes), lines (edges between two dots), panes (the faces
    of the grid) with their adjacency, start and end dots, and the three sparse
    constraint maps.  Coordinates, sizes and colours of the drawing are not part of
    this model; only the index structure is. */
module PuzzleGraph {

  /** Handle into the puzzle's list of dots. */
  type DotIndex = nat

  /** Handle into the puzzle's list of panes. */
  type PaneIndex = nat

  /** An edge, stored as the ordered pair of its endpoints. */
  datatype LineIndex = LineIndex(first: DotIndex, second: DotIndex)
  {
    /** Edge-node incidence: the dot is one of the two endpoints. */
    predicate Contains(dot: DotIndex) {
      first == dot || second == dot
    }
  }

  /** A dot marker: the path must visit the dot. */
  datatype DotComplexity = BlackHexagon

  /** A line marker: BlackHexagon must be traversed, LineBreak must not be. */
  datatype LineComplexity = BlackHexagon | LineBreak

  datatype ComplexityColor = Black | White

  /** A pane marker: a coloured square. */
  datatype PaneComplexity = Square(color: ComplexityColor)

  /** The graph, without the float data (dot and pane positions, cell size, line
      width, colours).  `dotCount` and `paneCount` are the lengths of the source's
      `dots` and `panes` vectors. */
  datatype Puzzle = Puzzle(
    dotCount: nat,
    lines: seq<LineIndex>,
    paneCount: nat,
    paneNears: seq<seq<(LineIndex, PaneIndex)>>,
    startDots: seq<DotIndex>,
    endDots: seq<DotIndex>,
    dotComplexity: map<DotIndex, DotComplexity>,
    lineComplexity: map<LineIndex, LineComplexity>,
    paneComplexity: map<PaneIndex, PaneComplexity>)

  /** Every neighbour listed in `paneNears` is itself a pane of the list; the
      region pass indexes its colour table with these values. */
  ghost predicate NearsInRange(nears: seq<seq<(LineIndex, PaneIndex)>>) {
    forall a, j :: 0 <= a < |nears| && 0 <= j < |nears[a]| ==> nears[a][j].1 < |nears|
  }

  /** Pane b is a pane of the list and lists pane a through some line. */
  ghost predicate Lists(nears: seq<seq<(LineIndex, PaneIndex)>>, b: int, a: int) {
    0 <= b < |nears| && exists j' :: 0 <= j' < |nears[b]| && nears[b][j'].1 == a
  }

  /** Pane b is a pane of the list and lists pane a through line l. */
  ghost predicate ListsThrough(nears: seq<seq<(LineIndex, PaneIndex)>>, b: int, l: LineIndex, a: int) {
    0 <= b < |nears| && exists j' :: 0 <= j' < |nears[b]| && nears[b][j'] == (l, a)
  }

  /** Pane-index symmetry: if pane a lists pane b (through some line), then b lists a. */
  ghost predicate NeighboursSymmetric(nears: seq<seq<(LineIndex, PaneIndex)>>) {
    forall a, j :: 0 <= a < |nears| && 0 <= j < |nears[a]| && nears[a][j].1 < |nears| ==>
      Lists(nears, nears[a][j].1, a)
  }

  /** Line symmetry: if pane a lists pane b through line l, then b lists a
      through the same line l. */
  ghost predicate LabelsSymmetric(nears: seq<seq<(LineIndex, PaneIndex)>>) {
    forall a, j :: 0 <= a < |nears| && 0 <= j < |nears[a]| && nears[a][j].1 < |nears| ==>
      ListsThrough(nears, nears[a][j].1, nears[a][j].0, a)
  }

  // ---------------------------------------------------------------------------
  // The default 5x5 grid

  // The default grid has 5 x 5 dots and therefore 4 x 4 panes.  The sizes are
  // written as literals so that the index arithmetic stays linear.

  /** Dot (x, y) is the (x * 5 + y)-th dot pushed. */
  function DotAt(x: nat, y: nat): DotIndex {
    x * 5 + y
  }

  /** The end dot is pushed after the 25 grid dots. */
  const END_DOT: DotIndex := 25

  /** The line from dot (x, y) to dot (x + 1, y). */
  function HLine(x: nat, y: nat): LineIndex {
    LineIndex(DotAt(x, y), DotAt(x + 1, y))
  }

  /** The line from dot (x, y) to dot (x, y + 1). */
  function VLine(x: nat, y: nat): LineIndex {
    LineIndex(DotAt(x, y), DotAt(x, y + 1))
  }

  /** The grid lines in push order: first the horizontal ones, x-major, then the
      vertical ones, y-major. */
  function GridLines(): seq<LineIndex> {
    seq(20, k requires 0 <= k < 20 => HLine(k / 5, k % 5))
    + seq(20, k requires 0 <= k < 20 => VLine(k % 5, k / 5))
  }

  /** The line joining the end dot to the grid's corner (4, 4). */
  const END_LINE: LineIndex := LineIndex(END_DOT, DotAt(4, 4))

  /** Pane (x, y) has index y * 4 + x. */
  function PaneAt(x: nat, y: nat): PaneIndex {
    y * 4 + x
  }

  /** The neighbour list the default construction gives pane (x, y), in push
      order: left, down, right, up.  The line recorded with each neighbour is the
      one the code records: horizontal_lines[y][x] for left and right,
      vertical_lines[y][x] for down and up. */
  function AsWrittenNears(x: nat, y: nat): seq<(LineIndex, PaneIndex)>
    requires x < 4 && y < 4
  {
    var ind := PaneAt(x, y);
    (if x > 0 then [(HLine(x, y), ind - 1)] else [])
    + (if y > 0 then [(VLine(x, y), ind - 4)] else [])
    + (if x + 1 < 4 then [(HLine(x, y), ind + 1)] else [])
    + (if y + 1 < 4 then [(VLine(x, y), ind + 4)] else [])
  }

  /** A neighbour entry that is present only when `present` holds. */
  function SideEntry(present: bool, l: LineIndex, q: int): seq<(LineIndex, PaneIndex)>
    requires present ==> q >= 0
  {
    if present then [(l, q)] else []
  }

  lemma SideEntryIn(present: bool, l: LineIndex, q: int, e: (LineIndex, PaneIndex))
    requires present ==> q >= 0
    ensures e in SideEntry(present, l, q) <==> present && e.0 == l && e.1 == q
  {
  }

  /** The neighbour list with, for each neighbour, the grid line the two panes
      share: pane (x, y) is bounded by VLine(x, y) on the left, HLine(x, y) below,
      VLine(x + 1, y) on the right and HLine(x, y + 1) above. */
  function SeparatingNears(x: nat, y: nat): seq<(LineIndex, PaneIndex)>
    requires x < 4 && y < 4
  {
    var ind := PaneAt(x, y);
    SideEntry(x > 0, VLine(x, y), ind - 1)
    + SideEntry(y > 0, HLine(x, y), ind - 4)
    + SideEntry(x + 1 < 4, VLine(x + 1, y), ind + 1)
    + SideEntry(y + 1 < 4, HLine(x, y + 1), ind + 4)
  }

  /** `pane_nears` with every adjacency labelled by the line the two panes share. */
  function SeparatingPaneNears(): seq<seq<(LineIndex, PaneIndex)>> {
    seq(16, i requires 0 <= i < 16 => SeparatingNears(i % 4, i / 4))
  }

  /** Line l is one of the four sides of pane (x, y). */
  predicate Borders(x: nat, y: nat, l: LineIndex) {
    l == VLine(x, y) || l == HLine(x, y) || l == VLine(x + 1, y) || l == HLine(x, y + 1)
  }

  /** The default puzzle's `pane_nears`, pane by pane. */
  function DefaultPaneNears(): seq<seq<(LineIndex, PaneIndex)>> {
    seq(16, i requires 0 <= i < 16 => AsWrittenNears(i % 4, i / 4))
  }

  /** Pane (x, y)'s entry in the default lists. */
  lemma DefaultListAt(x: nat, y: nat)
    requires x < 4 && y < 4
    ensures PaneAt(x, y) < 16 && DefaultPaneNears()[PaneAt(x, y)] == AsWrittenNears(x, y)
  {
    DivModGrid(y, x, 4);
  }

  /** Pane (x, y)'s entry in the separating lists. */
  lemma SeparatingListAt(x: nat, y: nat)
    requires x < 4 && y < 4
    ensures PaneAt(x, y) < 16 && SeparatingPaneNears()[PaneAt(x, y)] == SeparatingNears(x, y)
  {
    DivModGrid(y, x, 4);
  }

  /** The index structure of `Puzzle::default`, written in closed form. */
  function DefaultPuzzleSpec(): Puzzle {
    Puzzle(
      25 + 1,
      GridLines() + [END_LINE],
      16,
      DefaultPaneNears(),
      [DotAt(0, 0)],
      [END_DOT],
      map[2 := DotComplexity.BlackHexagon],
      map[],
      map[])
  }

  lemma DivModGrid(x: nat, y: nat, w: nat)
    requires w == 5 || w == 4
    requires y < w
    ensures (x * w + y) / w == x && (x * w + y) % w == y
  {
    if w == 5 {
      assert (x * 5 + y) / 5 == x && (x * 5 + y) % 5 == y;
    } else {
      assert (x * 4 + y) / 4 == x && (x * 4 + y) % 4 == y;
    }
  }

  /** `dots_indexes` of the default grid: column x holds the indices of dots (x, 0) .. (x, 4). */
  ghost predicate IsDotsIndexes(di: seq<seq<DotIndex>>) {
    |di| == 5 && (forall x :: 0 <= x < 5 ==> |di[x]| == 5) &&
    forall x, y :: 0 <= x < 5 && 0 <= y < 5 ==> di[x][y] == DotAt(x, y)
  }

  /** `horizontal_lines`: row y holds the lines (x, y)-(x + 1, y) for x = 0 .. 3. */
  ghost predicate IsHorizontalLines(hl: seq<seq<LineIndex>>) {
    |hl| == 5 && (forall y :: 0 <= y < 5 ==> |hl[y]| == 4) &&
    forall y, x :: 0 <= y < 5 && 0 <= x < 4 ==> hl[y][x] == HLine(x, y)
  }

  /** `vertical_lines`: entry y holds the lines (x, y)-(x, y + 1) for x = 0 .. 4. */
  ghost predicate IsVerticalLines(vl: seq<seq<LineIndex>>) {
    |vl| == 4 && (forall y :: 0 <= y < 4 ==> |vl[y]| == 5) &&
    forall y, x :: 0 <= y < 4 && 0 <= x < 5 ==> vl[y][x] == VLine(x, y)
  }

  /** The source's "create dots" block: a running counter numbers the dots
      column by column. */
  method CreateDots() returns (dotCount: nat, dotsIndexes: seq<seq<DotIndex>>)
    ensures dotCount == 25
    ensures IsDotsIndexes(dotsIndexes)
  {
    dotCount := 0;
    dotsIndexes := seq(5, _ => []);
    var i: nat := 0;
    for x := 0 to 5
      invariant |dotsIndexes| == 5
      invariant i == x * 5 && dotCount == i
      invariant forall x' :: 0 <= x' < x ==> |dotsIndexes[x']| == 5
      invariant forall x', y :: 0 <= x' < x && 0 <= y < 5 ==> dotsIndexes[x'][y] == DotAt(x', y)
      invariant forall x' :: x <= x' < 5 ==> dotsIndexes[x'] == []
    {
      for y := 0 to 5
        invariant |dotsIndexes| == 5
        invariant i == x * 5 + y && dotCount == i
        invariant forall x' :: 0 <= x' < x ==> |dotsIndexes[x']| == 5
        invariant forall x', y' :: 0 <= x' < x && 0 <= y' < 5 ==> dotsIndexes[x'][y'] == DotAt(x', y')
        invariant |dotsIndexes[x]| == y
        invariant forall y' :: 0 <= y' < y ==> dotsIndexes[x][y'] == DotAt(x, y')
        invariant forall x' :: x < x' < 5 ==> dotsIndexes[x'] == []
      {
        dotCount := dotCount + 1;  // dots.push(...)
        dotsIndexes := dotsIndexes[x := dotsIndexes[x] + [i]];
        i := i + 1;
      }
    }
  }

  /** The source's "horizontal lines" loop. */
  method CreateHorizontalLines(dotsIndexes: seq<seq<DotIndex>>)
    returns (lines: seq<LineIndex>, horizontalLines: seq<seq<LineIndex>>)
    requires IsDotsIndexes(dotsIndexes)
    ensures |lines| == 20
    ensures forall k :: 0 <= k < 20 ==> lines[k] == HLine(k / 5, k % 5)
    ensures IsHorizontalLines(horizontalLines)
  {
    lines := [];
    horizontalLines := seq(5, _ => []);
    for x := 0 to 4
      invariant |lines| == x * 5
      invariant forall k :: 0 <= k < |lines| ==> lines[k] == HLine(k / 5, k % 5)
      invariant |horizontalLines| == 5
      invariant forall y :: 0 <= y < 5 ==> |horizontalLines[y]| == x
      invariant forall y, x' :: 0 <= y < 5 && 0 <= x' < x ==> horizontalLines[y][x'] == HLine(x', y)
    {
      for y := 0 to 5
        invariant |lines| == x * 5 + y
        invariant forall k :: 0 <= k < |lines| ==> lines[k] == HLine(k / 5, k % 5)
        invariant |horizontalLines| == 5
        invariant forall y' :: 0 <= y' < 5 ==>
          |horizontalLines[y']| == (if y' < y then x + 1 else x)
        invariant forall y', x' :: 0 <= y' < 5 && 0 <= x' < |horizontalLines[y']| ==>
          horizontalLines[y'][x'] == HLine(x', y')
      {
        var dot1 := dotsIndexes[x][y];
        var dot2 := dotsIndexes[x + 1][y];
        var line := LineIndex(dot1, dot2);
        DivModGrid(x, y, 5);
        lines := lines + [line];
        horizontalLines := horizontalLines[y := horizontalLines[y] + [line]];
      }
    }
  }

  /** The source's "vertical lines" loop, appending to the horizontal ones. */
  method CreateVerticalLines(dotsIndexes: seq<seq<DotIndex>>, horizontal: seq<LineIndex>)
    returns (lines: seq<LineIndex>, verticalLines: seq<seq<LineIndex>>)
    requires IsDotsIndexes(dotsIndexes)
    requires |horizontal| == 20
    ensures |lines| == 40 && lines[..20] == horizontal
    ensures forall k :: 20 <= k < 40 ==> lines[k] == VLine((k - 20) % 5, (k - 20) / 5)
    ensures IsVerticalLines(verticalLines)
  {
    lines := horizontal;
    verticalLines := seq(4, _ => []);
    for y := 0 to 4
      invariant |lines| == 20 + y * 5 && lines[..20] == horizontal
      invariant forall k :: 20 <= k < |lines| ==> lines[k] == VLine((k - 20) % 5, (k - 20) / 5)
      invariant |verticalLines| == 4
      invariant forall y' :: 0 <= y' < y ==> |verticalLines[y']| == 5
      invariant forall y', x :: 0 <= y' < y && 0 <= x < 5 ==> verticalLines[y'][x] == VLine(x, y')
      invariant forall y' :: y <= y' < 4 ==> verticalLines[y'] == []
    {
      for x := 0 to 5
        invariant |lines| == 20 + y * 5 + x && lines[..20] == horizontal
        invariant forall k :: 20 <= k < |lines| ==> lines[k] == VLine((k - 20) % 5, (k - 20) / 5)
        invariant |verticalLines| == 4
        invariant forall y' :: 0 <= y' < y ==> |verticalLines[y']| == 5
        invariant forall y', x' :: 0 <= y' < y && 0 <= x' < 5 ==> verticalLines[y'][x'] == VLine(x', y')
        invariant |verticalLines[y]| == x
        invariant forall x' :: 0 <= x' < x ==> verticalLines[y][x'] == VLine(x', y)
        invariant forall y' :: y < y' < 4 ==> verticalLines[y'] == []
      {
        var dot1 := dotsIndexes[x][y];
        var dot2 := dotsIndexes[x][y + 1];
        var line := LineIndex(dot1, dot2);
        DivModGrid(y, x, 5);
        lines := lines + [line];
        verticalLines := verticalLines[y := verticalLines[y] + [line]];
      }
    }
  }

  /** The pushes into `pane_nears[ind]` for pane (x, y): left, down, right, up,
      each with the line the code records for it. */
  method PushPaneNears(horizontalLines: seq<seq<LineIndex>>, verticalLines: seq<seq<LineIndex>>,
                       x: nat, y: nat, vec0: seq<(LineIndex, PaneIndex)>)
    returns (vec: seq<(LineIndex, PaneIndex)>)
    requires IsHorizontalLines(horizontalLines) && IsVerticalLines(verticalLines)
    requires x < 4 && y < 4
    ensures vec == vec0 + AsWrittenNears(x, y)
  {
    var ind := y * 4 + x;
    vec := vec0;
    if x > 0 {
      vec := vec + [(horizontalLines[y][x], ind - 1)];  // left
    }
    if y > 0 {
      vec := vec + [(verticalLines[y][x], ind - 4)];  // down
    }
    if x + 1 < 4 {
      vec := vec + [(horizontalLines[y][x], ind + 1)];  // right
    }
    if y + 1 < 4 {
      vec := vec + [(verticalLines[y][x], ind + 4)];  // up
    }
  }

  /** The source's pane loop: one pane per grid cell, and for each the list of
      neighbours pushed in the order left, down, right, up. */
  method CreatePaneNears(horizontalLines: seq<seq<LineIndex>>, verticalLines: seq<seq<LineIndex>>)
    returns (paneCount: nat, paneNears: seq<seq<(LineIndex, PaneIndex)>>)
    requires IsHorizontalLines(horizontalLines) && IsVerticalLines(verticalLines)
    ensures paneCount == 16
    ensures paneNears == DefaultPaneNears()
  {
    paneCount := 0;
    paneNears := seq(16, _ => []);
    for y := 0 to 4
      invariant |paneNears| == 16
      invariant paneCount == y * 4
      invariant forall ind :: 0 <= ind < y * 4 ==> paneNears[ind] == DefaultPaneNears()[ind]
      invariant forall ind :: y * 4 <= ind < 16 ==> paneNears[ind] == []
    {
      for x := 0 to 4
        invariant |paneNears| == 16
        invariant paneCount == y * 4 + x
        invariant forall ind :: 0 <= ind < y * 4 + x ==> paneNears[ind] == DefaultPaneNears()[ind]
        invariant forall ind :: y * 4 + x <= ind < 16 ==> paneNears[ind] == []
      {
        var ind := y * 4 + x;
        paneCount := paneCount + 1;  // panes.push(...)
        var vec := PushPaneNears(horizontalLines, verticalLines, x, y, paneNears[ind]);
        DefaultListAt(x, y);
        assert vec == DefaultPaneNears()[ind];
        paneNears := paneNears[ind := vec];
      }
    }
    assert paneNears == DefaultPaneNears();
  }

  /** The construction of `Puzzle::default`: grid dots, lines, panes and their
      neighbour lists, the start dot, the end dot with its line, and the one
      initial dot constraint. */
  method DefaultPuzzle() returns (p: Puzzle)
    ensures p == DefaultPuzzleSpec()
  {
    var dotCount, dotsIndexes := CreateDots();
    var horizontal, horizontalLines := CreateHorizontalLines(dotsIndexes);
    var lines, verticalLines := CreateVerticalLines(dotsIndexes, horizontal);
    var paneCount, paneNears := CreatePaneNears(horizontalLines, verticalLines);

    var startDots := [dotsIndexes[0][0]];

    // the end dot and its line
    dotCount := dotCount + 1;
    var endDot := dotCount - 1;
    lines := lines + [LineIndex(endDot, dotsIndexes[4][4])];
    var endDots := [endDot];

    var dotComplexity := map[];
    dotComplexity := dotComplexity[2 := DotComplexity.BlackHexagon];

    p := Puzzle(dotCount, lines, paneCount, paneNears, startDots, endDots,
                dotComplexity, map[], map[]);

    assert lines == GridLines() + [END_LINE] by {
      forall k | 0 <= k < |lines| ensures lines[k] == (GridLines() + [END_LINE])[k] {
        if k < 20 {
          assert lines[k] == horizontal[k];
        } else if k < 40 {
          DivModGrid((k - 20) / 5, (k - 20) % 5, 5);
        }
      }
    }
  }

  // ---------------------------------------------------------------------------
  // Properties of the default graph

  /** Incidence does not depend on the order in which the endpoints are stored. */
  lemma ContainsIgnoresOrder(a: DotIndex, b: DotIndex, d: DotIndex)
    ensures LineIndex(a, b).Contains(d) == LineIndex(b, a).Contains(d)
    ensures LineIndex(a, b).Contains(d) <==> d == a || d == b
  {
  }

  /** The default grid has 25 + 1 dots, the end dot being the last of them, and
      2 * 5 * 4 grid lines followed by the end line from the end dot to dot
      (4, 4). */
  lemma DefaultCounts()
    ensures DefaultPuzzleSpec().dotCount == 25 + 1 == END_DOT + 1
    ensures |DefaultPuzzleSpec().lines| == 2 * 5 * 4 + 1
    ensures DefaultPuzzleSpec().lines[2 * 5 * 4] == LineIndex(END_DOT, DotAt(4, 4))
    ensures DefaultPuzzleSpec().paneCount == |DefaultPuzzleSpec().paneNears| == 16
  {
  }

  /** Every default line joins two valid dots that are one grid step apart (or the
      end dot and the corner), and no line is a loop. */
  lemma DefaultLinesWellFormed(l: LineIndex)
    requires l in DefaultPuzzleSpec().lines
    ensures l.first < DefaultPuzzleSpec().dotCount && l.second < DefaultPuzzleSpec().dotCount
    ensures l.first != l.second
    ensures l == END_LINE ||
      exists x: nat, y: nat :: x < 5 && y < 5 &&
        ((x + 1 < 5 && l == HLine(x, y)) || (y + 1 < 5 && l == VLine(x, y)))
  {
    var lines := DefaultPuzzleSpec().lines;
    var k :| 0 <= k < |lines| && lines[k] == l;
    if k < 20 {
      assert l == HLine(k / 5, k % 5);
    } else if k < 40 {
      assert l == VLine((k - 20) % 5, (k - 20) / 5);
    }
  }

  /** Horizontal line k starts at dot k; vertical line 20 + k starts at dot
      (k % 5, k / 5). */
  lemma DefaultLineShape(k: nat)
    requires k < 40
    ensures var l := DefaultPuzzleSpec().lines[k];
      if k < 20 then l.first == k && l.second == k + 5
      else l.first == ((k - 20) % 5) * 5 + (k - 20) / 5 && l.first < 25 && l.second == l.first + 1
  {
    var lines := DefaultPuzzleSpec().lines;
    if k < 20 {
      assert lines[k] == HLine(k / 5, k % 5);
    } else {
      assert lines[k] == VLine((k - 20) % 5, (k - 20) / 5);
    }
  }

  /** HLine(x, y) is default line x * 5 + y. */
  lemma DefaultHasHLine(x: nat, y: nat)
    requires x < 4 && y < 5
    ensures x * 5 + y < |DefaultPuzzleSpec().lines| && DefaultPuzzleSpec().lines[x * 5 + y] == HLine(x, y)
  {
    var k := x * 5 + y;
    DivModGrid(x, y, 5);
    assert DefaultPuzzleSpec().lines[k] == HLine(k / 5, k % 5);
  }

  /** VLine(x, y) is default line 20 + y * 5 + x. */
  lemma DefaultHasVLine(x: nat, y: nat)
    requires x < 5 && y < 4
    ensures 20 + y * 5 + x < |DefaultPuzzleSpec().lines| && DefaultPuzzleSpec().lines[20 + y * 5 + x] == VLine(x, y)
  {
    var k := y * 5 + x;
    DivModGrid(y, x, 5);
    assert DefaultPuzzleSpec().lines[20 + k] == VLine(k % 5, k / 5);
  }

  /** Each default line is listed once. */
  lemma DefaultLinesDistinct(i: nat, j: nat)
    requires i < j < |DefaultPuzzleSpec().lines|
    ensures DefaultPuzzleSpec().lines[i] != DefaultPuzzleSpec().lines[j]
  {
    var lines := DefaultPuzzleSpec().lines;
    DefaultLineShape(i);
    if j < 40 {
      DefaultLineShape(j);
      if i >= 20 {
        var a, b := i - 20, j - 20;
        assert a == (a / 5) * 5 + a % 5 && b == (b / 5) * 5 + b % 5;
      }
    } else {
      assert lines[j] == END_LINE;
    }
  }

  /** The position at which pane (x, y) lists a given grid neighbour. */
  lemma AsWrittenFind(x: nat, y: nat, q: PaneIndex) returns (j: nat)
    requires x < 4 && y < 4
    requires (x > 0 && q == PaneAt(x - 1, y)) || (y > 0 && q == PaneAt(x, y - 1)) ||
      (x + 1 < 4 && q == PaneAt(x + 1, y)) || (y + 1 < 4 && q == PaneAt(x, y + 1))
    ensures j < |AsWrittenNears(x, y)| && AsWrittenNears(x, y)[j].1 == q
  {
    var left := if x > 0 then 1 else 0;
    var down := if y > 0 then 1 else 0;
    var right := if x + 1 < 4 then 1 else 0;
    if x > 0 && q == PaneAt(x - 1, y) {
      j := 0;
    } else if y > 0 && q == PaneAt(x, y - 1) {
      j := left;
    } else if x + 1 < 4 && q == PaneAt(x + 1, y) {
      j := left + down;
    } else {
      j := left + down + right;
    }
  }

  /** Pane (x, y) lists exactly the panes one grid step away, through the code's
      push order (left, down, right, up). */
  lemma AsWrittenNeighbours(x: nat, y: nat, q: PaneIndex)
    requires x < 4 && y < 4
    ensures (exists j :: 0 <= j < |AsWrittenNears(x, y)| && AsWrittenNears(x, y)[j].1 == q) <==>
      ((x > 0 && q == PaneAt(x - 1, y)) || (y > 0 && q == PaneAt(x, y - 1)) ||
       (x + 1 < 4 && q == PaneAt(x + 1, y)) || (y + 1 < 4 && q == PaneAt(x, y + 1)))
  {
    if (x > 0 && q == PaneAt(x - 1, y)) || (y > 0 && q == PaneAt(x, y - 1)) ||
       (x + 1 < 4 && q == PaneAt(x + 1, y)) || (y + 1 < 4 && q == PaneAt(x, y + 1))
    {
      var j := AsWrittenFind(x, y, q);
    }
  }

  /** Every neighbour index in the default `pane_nears` is a pane index. */
  lemma DefaultNearsInRange()
    ensures NearsInRange(DefaultPaneNears())
  {
    var nears: seq<seq<(LineIndex, PaneIndex)>> := DefaultPaneNears();
    forall a: int, j: int | 0 <= a < |nears| && 0 <= j < |nears[a]| ensures nears[a][j].1 < |nears| {
      DivModGrid(a / 4, a % 4, 4);
      assert a == PaneAt(a % 4, a / 4);
      AsWrittenNeighbours(a % 4, a / 4, nears[a][j].1);
    }
  }

  /** If pane (x, y) lists pane q, then q lists pane (x, y), at position j'. */
  lemma AsWrittenNeighbourBack(x: nat, y: nat, q: PaneIndex) returns (j': nat)
    requires x < 4 && y < 4
    requires exists j :: 0 <= j < |AsWrittenNears(x, y)| && AsWrittenNears(x, y)[j].1 == q
    ensures q < 16
    ensures j' < |AsWrittenNears(q % 4, q / 4)| && AsWrittenNears(q % 4, q / 4)[j'].1 == PaneAt(x, y)
  {
    AsWrittenNeighbours(x, y, q);
    var qx, qy: nat;
    if x > 0 && q == PaneAt(x - 1, y) {
      qx, qy := x - 1, y;
      assert qx + 1 < 4 && PaneAt(x, y) == PaneAt(qx + 1, qy);
    } else if y > 0 && q == PaneAt(x, y - 1) {
      qx, qy := x, y - 1;
      assert qy + 1 < 4 && PaneAt(x, y) == PaneAt(qx, qy + 1);
    } else if x + 1 < 4 && q == PaneAt(x + 1, y) {
      qx, qy := x + 1, y;
      assert qx > 0 && PaneAt(x, y) == PaneAt(qx - 1, qy);
    } else {
      qx, qy := x, y + 1;
      assert qy > 0 && PaneAt(x, y) == PaneAt(qx, qy - 1);
    }
    j' := AsWrittenFind(qx, qy, PaneAt(x, y));
    DivModGrid(qy, qx, 4);
    assert q == PaneAt(qx, qy) && q % 4 == qx && q / 4 == qy;
  }

  /** The entry pane a records at position j is listed back by its neighbour, at
      position j'. */
  lemma DefaultNearBack(a: nat, j: nat) returns (j': nat)
    requires a < 16 && j < |DefaultPaneNears()[a]|
    ensures DefaultPaneNears()[a][j].1 < 16
    ensures j' < |DefaultPaneNears()[DefaultPaneNears()[a][j].1]|
    ensures DefaultPaneNears()[DefaultPaneNears()[a][j].1][j'].1 == a
  {
    var nears: seq<seq<(LineIndex, PaneIndex)>> := DefaultPaneNears();
    var x, y := a % 4, a / 4;
    DivModGrid(y, x, 4);
    assert a == PaneAt(x, y) && nears[a] == AsWrittenNears(x, y);
    var b := nears[a][j].1;
    j' := AsWrittenNeighbourBack(x, y, b);
    assert nears[b] == AsWrittenNears(b % 4, b / 4);
  }

  /** The default neighbour relation is symmetric on pane indices. */
  lemma DefaultNearsSymmetric()
    ensures NeighboursSymmetric(DefaultPaneNears())
  {
    var nears: seq<seq<(LineIndex, PaneIndex)>> := DefaultPaneNears();
    forall a, j | 0 <= a < |nears| && 0 <= j < |nears[a]| && nears[a][j].1 < |nears|
      ensures Lists(nears, nears[a][j].1, a)
    {
      var j' := DefaultNearBack(a, j);
      assert nears[nears[a][j].1][j'].1 == a;
    }
  }

  /** A corner pane has 2 neighbours, another border pane 3, an interior pane 4. */
  lemma DefaultNeighbourCount(x: nat, y: nat)
    requires x < 4 && y < 4
    ensures |DefaultPaneNears()[PaneAt(x, y)]| ==
      4 - (if x == 0 || x == 3 then 1 else 0) - (if y == 0 || y == 3 then 1 else 0)
    ensures 2 <= |DefaultPaneNears()[PaneAt(x, y)]| <= 4
  {
    DivModGrid(y, x, 4);
  }

  /** The default puzzle starts at dot (0, 0), ends at the extra end dot, and
      requires only dot 2 to be visited. */
  lemma DefaultEndpointsAndConstraints()
    ensures DefaultPuzzleSpec().startDots == [DotAt(0, 0)] == [0]
    ensures DefaultPuzzleSpec().endDots == [END_DOT] == [25]
    ensures DefaultPuzzleSpec().dotComplexity.Keys == {2}
    ensures DefaultPuzzleSpec().dotComplexity[2] == DotComplexity.BlackHexagon
    ensures DefaultPuzzleSpec().lineComplexity == map[] && DefaultPuzzleSpec().paneComplexity == map[]
  {
  }

  // ---------------------------------------------------------------------------
  // The line labels of `pane_nears`

  /** Pane (0, 0)'s as-written list: right and up neighbours, tagged with its
      bottom and left sides; its bottom side is no side of pane (1, 0). */
  lemma AsWrittenPaneZero()
    ensures AsWrittenNears(0, 0) == [(HLine(0, 0), PaneAt(1, 0)), (VLine(0, 0), PaneAt(0, 1))]
    ensures !Borders(1, 0, HLine(0, 0))
  {
    var s := AsWrittenNears(0, 0);
    assert s == [(HLine(0, 0), PaneAt(0, 0) + 1)] + [(VLine(0, 0), PaneAt(0, 0) + 4)];
  }

  /** Pane (1, 0)'s as-written list: left, right and up neighbours, the first
      two both tagged with its bottom side. */
  lemma AsWrittenPaneOne()
    ensures AsWrittenNears(1, 0) == [(HLine(1, 0), PaneAt(0, 0)), (HLine(1, 0), PaneAt(2, 0)), (VLine(1, 0), PaneAt(1, 1))]
  {
    var s := AsWrittenNears(1, 0);
    assert s == [(HLine(1, 0), PaneAt(1, 0) - 1)] + [(HLine(1, 0), PaneAt(1, 0) + 1)] + [(VLine(1, 0), PaneAt(1, 0) + 4)];
  }

  /** As written, pane 1 does not list pane 0 through HLine(0, 0), so the
      default labels are not symmetric. */
  lemma AsWrittenNotSymmetric()
    ensures !LabelsSymmetric(DefaultPaneNears())
  {
    DefaultFirstOfPaneZero();
    DefaultPaneOneMissesLabel();
  }

  lemma DefaultFirstOfPaneZero()
    ensures DefaultPaneNears()[0][0] == (HLine(0, 0), 1)
  {
    DefaultListAt(0, 0);
    AsWrittenPaneZero();
  }

  lemma DefaultPaneOneMissesLabel()
    ensures !ListsThrough(DefaultPaneNears(), 1, HLine(0, 0), 0)
  {
    DefaultListAt(1, 0);
    AsWrittenPaneOne();
  }

  /** With separating labels each pane lists the same neighbours, in the same
      order, as the code does; only the recorded lines differ. */
  lemma SeparatingSameNeighbours(x: nat, y: nat)
    requires x < 4 && y < 4
    ensures |SeparatingNears(x, y)| == |AsWrittenNears(x, y)|
    ensures forall j :: 0 <= j < |SeparatingNears(x, y)| ==> SeparatingNears(x, y)[j].1 == AsWrittenNears(x, y)[j].1
  {
  }

  /** The entries of pane (x, y)'s separating list: one per grid neighbour,
      labelled with the side the two panes share. */
  lemma SeparatingEntries(x: nat, y: nat, l: LineIndex, q: PaneIndex)
    requires x < 4 && y < 4
    ensures (l, q) in SeparatingNears(x, y) <==>
      ((x > 0 && q == PaneAt(x - 1, y) && l == VLine(x, y)) ||
       (y > 0 && q == PaneAt(x, y - 1) && l == HLine(x, y)) ||
       (x + 1 < 4 && q == PaneAt(x + 1, y) && l == VLine(x + 1, y)) ||
       (y + 1 < 4 && q == PaneAt(x, y + 1) && l == HLine(x, y + 1)))
  {
    var ind: int := PaneAt(x, y);
    SideEntryIn(x > 0, VLine(x, y), ind - 1, (l, q));
    SideEntryIn(y > 0, HLine(x, y), ind - 4, (l, q));
    SideEntryIn(x + 1 < 4, VLine(x + 1, y), ind + 1, (l, q));
    SideEntryIn(y + 1 < 4, HLine(x, y + 1), ind + 4, (l, q));
  }

  /** Every separating label is a side of both panes it lies between. */
  lemma SeparatingLabelsBorder(x: nat, y: nat, j: nat)
    requires x < 4 && y < 4 && j < |SeparatingNears(x, y)|
    ensures var (l, q) := SeparatingNears(x, y)[j];
      q < 16 && Borders(x, y, l) && Borders(q % 4, q / 4, l)
  {
    var (l, q) := SeparatingNears(x, y)[j];
    assert (l, q) in SeparatingNears(x, y);
    SeparatingEntries(x, y, l, q);
    if x > 0 && q == PaneAt(x - 1, y) && l == VLine(x, y) {
      SeparatingListedByLeft(x, y);
      assert Borders(x - 1, y, l);
    } else if y > 0 && q == PaneAt(x, y - 1) && l == HLine(x, y) {
      SeparatingListedByBelow(x, y);
      assert Borders(x, y - 1, l);
    } else if x + 1 < 4 && q == PaneAt(x + 1, y) && l == VLine(x + 1, y) {
      SeparatingListedByRight(x, y);
      assert Borders(x + 1, y, l);
    } else {
      SeparatingListedByAbove(x, y);
      assert Borders(x, y + 1, l);
    }
  }

  /** Pane (x, y) is listed, with its left side, by its left neighbour q. */
  lemma SeparatingListedByLeft(x: nat, y: nat)
    requires 0 < x < 4 && y < 4
    ensures var q := PaneAt(x - 1, y); q < 16 && q % 4 == x - 1 && q / 4 == y
    ensures (VLine(x, y), PaneAt(x, y)) in SeparatingNears(x - 1, y)
  {
    DivModGrid(y, x - 1, 4);
    SideEntryIn(x - 1 + 1 < 4, VLine(x - 1 + 1, y), PaneAt(x - 1, y) + 1, (VLine(x, y), PaneAt(x, y)));
  }

  /** Pane (x, y) is listed, with its lower side, by the pane q below it. */
  lemma SeparatingListedByBelow(x: nat, y: nat)
    requires x < 4 && 0 < y < 4
    ensures var q := PaneAt(x, y - 1); q < 16 && q % 4 == x && q / 4 == y - 1
    ensures (HLine(x, y), PaneAt(x, y)) in SeparatingNears(x, y - 1)
  {
    DivModGrid(y - 1, x, 4);
    SideEntryIn(y - 1 + 1 < 4, HLine(x, y - 1 + 1), PaneAt(x, y - 1) + 4, (HLine(x, y), PaneAt(x, y)));
  }

  /** Pane (x, y) is listed, with its right side, by its right neighbour q. */
  lemma SeparatingListedByRight(x: nat, y: nat)
    requires x + 1 < 4 && y < 4
    ensures var q := PaneAt(x + 1, y); q < 16 && q % 4 == x + 1 && q / 4 == y
    ensures (VLine(x + 1, y), PaneAt(x, y)) in SeparatingNears(x + 1, y)
  {
    DivModGrid(y, x + 1, 4);
    SideEntryIn(x + 1 > 0, VLine(x + 1, y), PaneAt(x + 1, y) - 1, (VLine(x + 1, y), PaneAt(x, y)));
  }

  /** Pane (x, y) is listed, with its upper side, by the pane q above it. */
  lemma SeparatingListedByAbove(x: nat, y: nat)
    requires x < 4 && y + 1 < 4
    ensures var q := PaneAt(x, y + 1); q < 16 && q % 4 == x && q / 4 == y + 1
    ensures (HLine(x, y + 1), PaneAt(x, y)) in SeparatingNears(x, y + 1)
  {
    DivModGrid(y + 1, x, 4);
    SideEntryIn(y + 1 > 0, HLine(x, y + 1), PaneAt(x, y + 1) - 4, (HLine(x, y + 1), PaneAt(x, y)));
  }

  /** The entry pane (x, y) records for a neighbour appears, with the same
      line, in the neighbour's list. */
  lemma SeparatingBack(x: nat, y: nat, l: LineIndex, q: PaneIndex)
    requires x < 4 && y < 4 && (l, q) in SeparatingNears(x, y)
    ensures q < 16 && (l, PaneAt(x, y)) in SeparatingNears(q % 4, q / 4)
  {
    SeparatingEntries(x, y, l, q);
    if x > 0 && q == PaneAt(x - 1, y) && l == VLine(x, y) {
      SeparatingListedByLeft(x, y);
    } else if y > 0 && q == PaneAt(x, y - 1) && l == HLine(x, y) {
      SeparatingListedByBelow(x, y);
    } else if x + 1 < 4 && q == PaneAt(x + 1, y) && l == VLine(x + 1, y) {
      SeparatingListedByRight(x, y);
    } else {
      SeparatingListedByAbove(x, y);
    }
  }

  /** With separating labels, if pane a lists b through line l then b lists a
      through the same l. */
  lemma SeparatingLabelsSymmetric()
    ensures NearsInRange(SeparatingPaneNears())
    ensures LabelsSymmetric(SeparatingPaneNears())
  {
    var nears: seq<seq<(LineIndex, PaneIndex)>> := SeparatingPaneNears();
    forall a: int, j: int | 0 <= a < |nears| && 0 <= j < |nears[a]| ensures nears[a][j].1 < |nears| {
      DivModGrid(a / 4, a % 4, 4);
      SeparatingLabelsBorder(a % 4, a / 4, j);
    }
    forall a, j | 0 <= a < |nears| && 0 <= j < |nears[a]| && nears[a][j].1 < |nears|
      ensures ListsThrough(nears, nears[a][j].1, nears[a][j].0, a)
    {
      var x, y := a % 4, a / 4;
      DivModGrid(y, x, 4);
      assert a == PaneAt(x, y) && nears[a] == SeparatingNears(x, y);
      var (l, q) := nears[a][j];
      assert (l, q) in SeparatingNears(x, y);
      SeparatingBack(x, y, l, q);
      assert nears[q] == SeparatingNears(q % 4, q / 4);
      var j' :| 0 <= j' < |nears[q]| && nears[q][j'] == (l, a);
    }
  }
}
