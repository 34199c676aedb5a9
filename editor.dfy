/** The puzzle editor's constraint tool: a click with a tool selected on a dot,
    a line or a pane removes that object's constraint if it has one and
    otherwise gives it the tool's constraint.  Selection by mouse position and
    all drawing are outside this model. */
module Editor {
  import opened PuzzleGraph

  /** The object under the mouse. */
  datatype SelectedObject =
    | NoObject
    | Dot(dot: DotIndex)
    | Line(line: LineIndex)
    | Pane(pane: PaneIndex)

  /** The constraint tool in use. */
  datatype SelectedComplexity = Hexagon | LineBreak | Square

  /** `if map.remove(&key).is_none() { map.insert(key, value) }`: drops the
      entry for `key` if there is one, and otherwise adds `key -> value`. */
  function Toggle<K, V>(m: map<K, V>, key: K, value: V): (r: map<K, V>)
    ensures key in r <==> key !in m
    ensures key in r ==> r[key] == value
    ensures forall j :: j in m && j != key ==> j in r && r[j] == m[j]
    ensures forall j :: j in r && j != key ==> j in m
  {
    if key in m then m - {key} else m[key := value]
  }

  /** The puzzle after a click with tool `tool` on object `obj`; `color` is the
      colour a new square gets. */
  function ApplyClick(p: Puzzle, tool: SelectedComplexity, obj: SelectedObject, color: ComplexityColor): Puzzle {
    match (tool, obj)
    case (Hexagon, Dot(k)) => p.(dotComplexity := Toggle(p.dotComplexity, k, DotComplexity.BlackHexagon))
    case (Hexagon, Line(k)) => p.(lineComplexity := Toggle(p.lineComplexity, k, LineComplexity.BlackHexagon))
    case (LineBreak, Line(k)) => p.(lineComplexity := Toggle(p.lineComplexity, k, LineComplexity.LineBreak))
    case (Square, Pane(k)) => p.(paneComplexity := Toggle(p.paneComplexity, k, PaneComplexity.Square(color)))
    case _ => p
  }

  /** The tool has a rule for this kind of object. */
  predicate HasRule(tool: SelectedComplexity, obj: SelectedObject) {
    (tool.Hexagon? && (obj.Dot? || obj.Line?)) ||
    (tool.LineBreak? && obj.Line?) ||
    (tool.Square? && obj.Pane?)
  }

  /** The object's current constraint, if any, is the one the tool would add. */
  predicate HoldsToolValue(p: Puzzle, tool: SelectedComplexity, obj: SelectedObject, color: ComplexityColor) {
    match (tool, obj)
    case (Hexagon, Dot(k)) => k in p.dotComplexity ==> p.dotComplexity[k] == DotComplexity.BlackHexagon
    case (Hexagon, Line(k)) => k in p.lineComplexity ==> p.lineComplexity[k] == LineComplexity.BlackHexagon
    case (LineBreak, Line(k)) => k in p.lineComplexity ==> p.lineComplexity[k] == LineComplexity.LineBreak
    case (Square, Pane(k)) => k in p.paneComplexity ==> p.paneComplexity[k] == PaneComplexity.Square(color)
    case _ => true
  }

  lemma ToggleTwice<K, V>(m: map<K, V>, key: K, value: V)
    requires key in m ==> m[key] == value
    ensures Toggle(Toggle(m, key, value), key, value) == m
  {
    assert Toggle(Toggle(m, key, value), key, value).Keys == m.Keys;
  }

  lemma ToggleThrice<K, V>(m: map<K, V>, key: K, value: V)
    ensures Toggle(Toggle(Toggle(m, key, value), key, value), key, value) == Toggle(m, key, value)
  {
    var once := Toggle(m, key, value);
    ToggleTwice(once, key, value);
  }

  /** The Hexagon tool on a dot is a pure toggle: a hexagon dot loses its
      constraint, a plain dot gets a hexagon. */
  lemma HexagonOnDot(p: Puzzle, k: DotIndex, color: ComplexityColor)
    ensures var r := ApplyClick(p, Hexagon, Dot(k), color);
      (k in r.dotComplexity <==> k !in p.dotComplexity) &&
      (k in r.dotComplexity ==> r.dotComplexity[k] == DotComplexity.BlackHexagon)
  {
  }

  /** The Hexagon tool on a line removes any constraint, a line break included,
      and only an unconstrained line gets a hexagon. */
  lemma HexagonOnLine(p: Puzzle, k: LineIndex, color: ComplexityColor)
    ensures var r := ApplyClick(p, Hexagon, Line(k), color);
      (k in r.lineComplexity <==> k !in p.lineComplexity) &&
      (k in r.lineComplexity ==> r.lineComplexity[k] == LineComplexity.BlackHexagon)
  {
  }

  /** The LineBreak tool on a line removes any constraint, a hexagon included,
      and only an unconstrained line gets a break. */
  lemma LineBreakOnLine(p: Puzzle, k: LineIndex, color: ComplexityColor)
    ensures var r := ApplyClick(p, SelectedComplexity.LineBreak, Line(k), color);
      (k in r.lineComplexity <==> k !in p.lineComplexity) &&
      (k in r.lineComplexity ==> r.lineComplexity[k] == LineComplexity.LineBreak)
  {
  }

  /** The Square tool on a pane removes a square of any colour, and only an
      unconstrained pane gets a square of the selected colour. */
  lemma SquareOnPane(p: Puzzle, k: PaneIndex, color: ComplexityColor)
    ensures var r := ApplyClick(p, SelectedComplexity.Square, Pane(k), color);
      (k in r.paneComplexity <==> k !in p.paneComplexity) &&
      (k in r.paneComplexity ==> r.paneComplexity[k] == PaneComplexity.Square(color))
  {
  }

  /** A tool with no rule for the selected object changes nothing. */
  lemma ClickNoRule(p: Puzzle, tool: SelectedComplexity, obj: SelectedObject, color: ComplexityColor)
    requires !HasRule(tool, obj)
    ensures ApplyClick(p, tool, obj, color) == p
  {
  }

  /** A click touches only the constraint map of the selected object's kind,
      and in it only the selected object's entry; the graph is unchanged. */
  lemma ClickLocality(p: Puzzle, tool: SelectedComplexity, obj: SelectedObject, color: ComplexityColor)
    ensures var r := ApplyClick(p, tool, obj, color);
      && r.dotCount == p.dotCount && r.lines == p.lines && r.paneCount == p.paneCount
      && r.paneNears == p.paneNears && r.startDots == p.startDots && r.endDots == p.endDots
      && (!obj.Dot? ==> r.dotComplexity == p.dotComplexity)
      && (!obj.Line? ==> r.lineComplexity == p.lineComplexity)
      && (!obj.Pane? ==> r.paneComplexity == p.paneComplexity)
      && (forall d :: (!obj.Dot? || d != obj.dot) ==>
            (d in r.dotComplexity <==> d in p.dotComplexity) &&
            (d in r.dotComplexity ==> r.dotComplexity[d] == p.dotComplexity[d]))
      && (forall l :: (!obj.Line? || l != obj.line) ==>
            (l in r.lineComplexity <==> l in p.lineComplexity) &&
            (l in r.lineComplexity ==> r.lineComplexity[l] == p.lineComplexity[l]))
      && (forall q :: (!obj.Pane? || q != obj.pane) ==>
            (q in r.paneComplexity <==> q in p.paneComplexity) &&
            (q in r.paneComplexity ==> r.paneComplexity[q] == p.paneComplexity[q]))
  {
  }

  /** Clicking twice with the same tool, object and colour restores the puzzle
      whenever the object's constraint, if any, is the tool's own. */
  lemma ClickTwiceRestores(p: Puzzle, tool: SelectedComplexity, obj: SelectedObject, color: ComplexityColor)
    requires HoldsToolValue(p, tool, obj, color)
    ensures ApplyClick(ApplyClick(p, tool, obj, color), tool, obj, color) == p
  {
    match (tool, obj)
    case (Hexagon, Dot(k)) => ToggleTwice(p.dotComplexity, k, DotComplexity.BlackHexagon);
    case (Hexagon, Line(k)) => ToggleTwice(p.lineComplexity, k, LineComplexity.BlackHexagon);
    case (LineBreak, Line(k)) => ToggleTwice(p.lineComplexity, k, LineComplexity.LineBreak);
    case (Square, Pane(k)) => ToggleTwice(p.paneComplexity, k, PaneComplexity.Square(color));
    case _ =>
  }

  /** A second click replaces a foreign constraint by the tool's own: a line
      break clicked twice with the Hexagon tool becomes a hexagon. */
  lemma ClickTwiceReplaces(p: Puzzle, k: LineIndex, color: ComplexityColor)
    requires k in p.lineComplexity && p.lineComplexity[k] == LineComplexity.LineBreak
    ensures var r := ApplyClick(ApplyClick(p, Hexagon, Line(k), color), Hexagon, Line(k), color);
      r != p && r.lineComplexity[k] == LineComplexity.BlackHexagon
  {
    var r := ApplyClick(ApplyClick(p, Hexagon, Line(k), color), Hexagon, Line(k), color);
    assert r.lineComplexity[k] != p.lineComplexity[k];
  }

  /** Three clicks always do what one does. */
  lemma ClickThriceIsOnce(p: Puzzle, tool: SelectedComplexity, obj: SelectedObject, color: ComplexityColor)
    ensures ApplyClick(ApplyClick(ApplyClick(p, tool, obj, color), tool, obj, color), tool, obj, color) ==
      ApplyClick(p, tool, obj, color)
  {
    match (tool, obj)
    case (Hexagon, Dot(k)) => ToggleThrice(p.dotComplexity, k, DotComplexity.BlackHexagon);
    case (Hexagon, Line(k)) => ToggleThrice(p.lineComplexity, k, LineComplexity.BlackHexagon);
    case (LineBreak, Line(k)) => ToggleThrice(p.lineComplexity, k, LineComplexity.LineBreak);
    case (Square, Pane(k)) => ToggleThrice(p.paneComplexity, k, PaneComplexity.Square(color));
    case _ =>
  }

  class EditorApp {
    var puzzle: Puzzle
    var selectedObject: SelectedObject
    var selectedComplexity: SelectedComplexity
    var selectedColor: ComplexityColor

    /** `EditorApp::new`: nothing selected, the Hexagon tool, black squares. */
    constructor (puzzle: Puzzle)
      ensures this.puzzle == puzzle && selectedObject == NoObject && selectedComplexity == Hexagon
      ensures selectedColor == Black
    {
      this.puzzle := puzzle;
      selectedObject := NoObject;
      selectedComplexity := Hexagon;
      selectedColor := Black;
    }

    /** `EditorApp::click`: toggles the selected object's constraint with the
        selected tool; the selection itself is kept. */
    method Click()
      modifies this
      ensures puzzle == ApplyClick(old(puzzle), selectedComplexity, selectedObject, selectedColor)
      ensures selectedObject == old(selectedObject) && selectedComplexity == old(selectedComplexity)
      ensures selectedColor == old(selectedColor)
    {
      match selectedComplexity {
        case Hexagon =>
          match selectedObject {
            case NoObject =>
            case Dot(key) =>
              var m := puzzle.dotComplexity;
              if key in m {
                m := m - {key};
              } else {
                m := m[key := DotComplexity.BlackHexagon];
              }
              puzzle := puzzle.(dotComplexity := m);
            case Line(key) =>
              var m := puzzle.lineComplexity;
              if key in m {
                m := m - {key};
              } else {
                m := m[key := LineComplexity.BlackHexagon];
              }
              puzzle := puzzle.(lineComplexity := m);
            case Pane(_) =>
          }
        case LineBreak =>
          match selectedObject {
            case NoObject =>
            case Dot(_) =>
            case Line(key) =>
              var m := puzzle.lineComplexity;
              if key in m {
                m := m - {key};
              } else {
                m := m[key := LineComplexity.LineBreak];
              }
              puzzle := puzzle.(lineComplexity := m);
            case Pane(_) =>
          }
        case Square =>
          match selectedObject {
            case NoObject =>
            case Dot(_) =>
            case Line(_) =>
            case Pane(key) =>
              var m := puzzle.paneComplexity;
              if key in m {
                m := m - {key};
              } else {
                m := m[key := PaneComplexity.Square(selectedColor)];
              }
              puzzle := puzzle.(paneComplexity := m);
          }
      }
    }
  }
}
