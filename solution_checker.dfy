/** The solution validator: judges a finished path (the dots and lines visited
    and whether the tracer rests on a dot) against the puzzle's constraints.  The
    region check first splits the panes into components of the pane dual graph,
    where an adjacency is cut when its line is on the path. */
module SolutionChecker {
  import opened PuzzleGraph

  datatype SolutionError =
    | Incomplete
    | DotError(dot: DotIndex)
    | LineError(line: LineIndex)
    | PaneError

  /** `Result<(), SolutionError>`. */
  datatype Outcome = Ok | Err(error: SolutionError)

  type Nears = seq<seq<(LineIndex, PaneIndex)>>

  // ---------------------------------------------------------------------------
  // Connectivity of the pane dual graph

  /** Pane a lists pane b through a line that is not on the path. */
  ghost predicate Linked(nears: Nears, path: seq<LineIndex>, a: nat, b: nat) {
    a < |nears| && exists j :: 0 <= j < |nears[a]| && nears[a][j].1 == b && nears[a][j].0 !in path
  }

  /** A non-empty sequence of panes, each linked to the next. */
  ghost predicate IsWalk(nears: Nears, path: seq<LineIndex>, w: seq<nat>) {
    |w| > 0 && forall i :: 0 <= i < |w| - 1 ==> Linked(nears, path, w[i], w[i + 1])
  }

  ghost predicate Reachable(nears: Nears, path: seq<LineIndex>, a: nat, b: nat) {
    exists w :: IsWalk(nears, path, w) && w[0] == a && w[|w| - 1] == b
  }

  /** Every uncut adjacency can be crossed both ways. */
  ghost predicate LinksSymmetric(nears: Nears, path: seq<LineIndex>) {
    forall a, b :: Linked(nears, path, a, b) ==> Linked(nears, path, b, a)
  }

  /** Pane p belongs to one of the components c[0 .. bound). */
  ghost predicate InSomeBefore(c: seq<seq<PaneIndex>>, p: nat, bound: nat) {
    exists k, i :: 0 <= k < bound && k < |c| && 0 <= i < |c[k]| && c[k][i] == p
  }

  /** What `find_components` produces for panes 0 .. |nears| - 1:
      non-empty components, each starting with the lowest pane that no earlier
      component holds, each pane in exactly one of them and listed once, every
      member reachable from its component's first pane, and each uncut
      adjacency leading to the same or an earlier component. */
  ghost predicate ComponentSplit(nears: Nears, path: seq<LineIndex>, c: seq<seq<PaneIndex>>) {
    && (forall k :: 0 <= k < |c| ==> c[k] != [])
    && (forall k, i :: 0 <= k < |c| && 0 <= i < |c[k]| ==> c[k][i] < |nears|)
    && (forall k, p :: 0 <= k < |c| && 0 <= p < c[k][0] ==> InSomeBefore(c, p, k))
    && (forall p :: 0 <= p < |nears| ==> InSomeBefore(c, p, |c|))
    && (forall k1, i1, k2, i2 ::
          (0 <= k1 < |c| && 0 <= i1 < |c[k1]| && 0 <= k2 < |c| && 0 <= i2 < |c[k2]| &&
           c[k1][i1] == c[k2][i2]) ==> k1 == k2 && i1 == i2)
    && (forall k, i :: 0 <= k < |c| && 0 <= i < |c[k]| ==> Reachable(nears, path, c[k][0], c[k][i]))
    && (forall k, i, b :: 0 <= k < |c| && 0 <= i < |c[k]| && Linked(nears, path, c[k][i], b) ==>
          InSomeBefore(c, b, k + 1))
  }

  // ---------------------------------------------------------------------------
  // The state of the flood fill

  /** Every listed pane is placed, and owned by the component that lists it. */
  ghost predicate ListedPlaced(n: nat, color: seq<int>, c: seq<seq<PaneIndex>>, owner: seq<nat>)
    requires |color| == n && |owner| == n
  {
    forall k, i :: 0 <= k < |c| && 0 <= i < |c[k]| ==>
      c[k][i] < n && color[c[k][i]] == 2 && owner[c[k][i]] == k
  }

  /** Every placed pane is listed by the component that owns it. */
  ghost predicate PlacedListed(n: nat, color: seq<int>, c: seq<seq<PaneIndex>>, owner: seq<nat>)
    requires |color| == n && |owner| == n
  {
    forall p :: 0 <= p < n && color[p] == 2 ==> owner[p] < |c| && p in c[owner[p]]
  }

  /** No component lists a pane twice. */
  ghost predicate ListsDistinct(c: seq<seq<PaneIndex>>) {
    forall k, i, j :: 0 <= k < |c| && 0 <= i < j < |c[k]| ==> c[k][i] != c[k][j]
  }

  /** Each non-empty component starts with its seed. */
  ghost predicate SeedsFirst(c: seq<seq<PaneIndex>>, seeds: seq<nat>)
    requires |seeds| == |c|
  {
    forall k :: 0 <= k < |c| && c[k] != [] ==> c[k][0] == seeds[k]
  }

  /** Every pane below the seed of a search was placed, in an earlier
      component, before that search began. */
  ghost predicate SeedsLeast(n: nat, color: seq<int>, owner: seq<nat>, seeds: seq<nat>)
    requires |color| == n && |owner| == n
  {
    forall k, p :: 0 <= k < |seeds| && 0 <= p < seeds[k] && p < n ==> color[p] == 2 && owner[p] < k
  }

  /** Every seen pane has a walk to it from the seed of its component. */
  ghost predicate SeenWalked(nears: Nears, path: seq<LineIndex>, color: seq<int>,
                             c: seq<seq<PaneIndex>>, owner: seq<nat>, seeds: seq<nat>, walks: seq<seq<nat>>)
    requires |color| == |nears| && |owner| == |nears| && |walks| == |nears| && |seeds| == |c|
  {
    forall p :: 0 <= p < |nears| && color[p] != 0 ==>
      owner[p] < |c| && IsWalk(nears, path, walks[p]) &&
      walks[p][0] == seeds[owner[p]] && walks[p][|walks[p]| - 1] == p
  }

  /** Facts that hold throughout the flood fill.  color[p] is 0 for a pane not
      yet seen, 1 for a pane on the stack and 2 for a pane placed in a component;
      owner[p] is the component a seen pane goes to, seeds[k] is the pane the
      k-th search started from and walks[p] a walk from that seed to p. */
  ghost predicate Tracked(nears: Nears, path: seq<LineIndex>, color: seq<int>,
                          c: seq<seq<PaneIndex>>, owner: seq<nat>, seeds: seq<nat>, walks: seq<seq<nat>>)
  {
    var n := |nears|;
    && |color| == n && |owner| == n && |walks| == n && |seeds| == |c|
    && (forall p :: 0 <= p < n ==> 0 <= color[p] <= 2)
    && ListedPlaced(n, color, c, owner)
    && PlacedListed(n, color, c, owner)
    && ListsDistinct(c)
    && SeedsFirst(c, seeds)
    && SeedsLeast(n, color, owner, seeds)
    && SeenWalked(nears, path, color, c, owner, seeds, walks)
  }

  /** Uncut adjacencies of placed panes other than `except` lead to seen panes of
      the same or an earlier component. */
  ghost predicate ClosedExcept(nears: Nears, path: seq<LineIndex>, color: seq<int>, owner: seq<nat>, except: int)
    requires |color| == |nears| == |owner|
  {
    forall a: nat, b: nat :: a < |nears| && a != except && color[a] == 2 && Linked(nears, path, a, b) ==>
      b < |nears| && color[b] != 0 && owner[b] <= owner[a]
  }

  /** Between two searches: nothing is on the stack, every component is
      non-empty and panes 0 .. id - 1 are placed. */
  ghost predicate Settled(nears: Nears, path: seq<LineIndex>, color: seq<int>,
                          c: seq<seq<PaneIndex>>, owner: seq<nat>, seeds: seq<nat>, walks: seq<seq<nat>>, id: int)
  {
    && Tracked(nears, path, color, c, owner, seeds, walks)
    && ClosedExcept(nears, path, color, owner, -1)
    && (forall p :: 0 <= p < |nears| ==> color[p] != 1)
    && (forall k :: 0 <= k < |c| ==> c[k] != [])
    && (forall p :: 0 <= p < id && p < |nears| ==> color[p] == 2)
  }

  /** During the search from pane `id` for the last component: the panes with
      colour 1 are exactly those on the stack, all bound for the last component. */
  ghost predicate Searching(nears: Nears, path: seq<LineIndex>, color: seq<int>,
                            c: seq<seq<PaneIndex>>, owner: seq<nat>, seeds: seq<nat>, walks: seq<seq<nat>>,
                            id: nat, stack: seq<nat>)
  {
    && Tracked(nears, path, color, c, owner, seeds, walks)
    && |c| > 0 && id < |nears| && seeds[|c| - 1] == id
    && (forall i :: 0 <= i < |stack| ==> stack[i] < |nears|)
    && (forall i, j :: 0 <= i < j < |stack| ==> stack[i] != stack[j])
    && (forall p :: 0 <= p < |nears| ==> (color[p] == 1 <==> p in stack))
    && (forall p :: 0 <= p < |nears| && color[p] == 1 ==> owner[p] == |c| - 1)
    && (forall k :: 0 <= k < |c| - 1 ==> c[k] != [])
    && (forall p :: 0 <= p < id ==> color[p] == 2)
    && color[id] != 0
  }

  /** The state at the head of the `while let Some(id1) = stack.pop()` loop. */
  ghost predicate Exploring(nears: Nears, path: seq<LineIndex>, color: seq<int>,
                            c: seq<seq<PaneIndex>>, owner: seq<nat>, seeds: seq<nat>, walks: seq<seq<nat>>,
                            id: nat, stack: seq<nat>)
  {
    && Searching(nears, path, color, c, owner, seeds, walks, id, stack)
    && ClosedExcept(nears, path, color, owner, -1)
    && (c[|c| - 1] == [] ==> stack == [id])
  }

  /** Every pane seen before is still seen after. */
  ghost predicate SeenKept(before: seq<int>, after: seq<int>) {
    |before| == |after| && forall p :: 0 <= p < |before| && before[p] != 0 ==> after[p] != 0
  }

  /** The first j neighbours that pane id1 lists through a line off the path are seen. */
  ghost predicate NeighboursSeen(nears: Nears, path: seq<LineIndex>, color: seq<int>, id1: nat, j: nat)
    requires NearsInRange(nears) && |color| == |nears| && id1 < |nears|
  {
    forall j' :: 0 <= j' < j && j' < |nears[id1]| && nears[id1][j'].0 !in path ==> color[nears[id1][j'].1] != 0
  }

  /** Looking at neighbour j, which is seen afterwards when its line is off the
      path, extends the seen neighbours by one. */
  lemma SeenExtends(nears: Nears, path: seq<LineIndex>, before: seq<int>, after: seq<int>, id1: nat, j: nat)
    requires NearsInRange(nears) && |before| == |nears| && id1 < |nears| && j < |nears[id1]|
    requires NeighboursSeen(nears, path, before, id1, j) && SeenKept(before, after)
    requires nears[id1][j].0 !in path ==> after[nears[id1][j].1] != 0
    ensures NeighboursSeen(nears, path, after, id1, j + 1)
  {
    forall j' | 0 <= j' < j + 1 && j' < |nears[id1]| && nears[id1][j'].0 !in path
      ensures after[nears[id1][j'].1] != 0
    {
      if j' < j {
        assert before[nears[id1][j'].1] != 0;
      }
    }
  }

  /** The panes not yet seen. */
  ghost function Unseen(color: seq<int>): set<nat> {
    set p: nat | p < |color| && color[p] == 0
  }

  lemma WalkExtend(nears: Nears, path: seq<LineIndex>, w: seq<nat>, b: nat)
    requires IsWalk(nears, path, w) && Linked(nears, path, w[|w| - 1], b)
    ensures IsWalk(nears, path, w + [b]) && (w + [b])[0] == w[0]
  {
    var w' := w + [b];
    forall i | 0 <= i < |w'| - 1 ensures Linked(nears, path, w'[i], w'[i + 1]) {
      if i < |w| - 1 {
        assert w'[i] == w[i] && w'[i + 1] == w[i + 1];
      }
    }
  }

  /** The flood fill once all searches are done is a component split. */
  lemma SettledIsSplit(nears: Nears, path: seq<LineIndex>, color: seq<int>,
                       c: seq<seq<PaneIndex>>, owner: seq<nat>, seeds: seq<nat>, walks: seq<seq<nat>>)
    requires NearsInRange(nears)
    requires Settled(nears, path, color, c, owner, seeds, walks, |nears|)
    ensures ComponentSplit(nears, path, c)
  {
    assert Tracked(nears, path, color, c, owner, seeds, walks);
    forall p | 0 <= p < |nears| ensures InSomeBefore(c, p, |c|) {
      PlacedIsListed(c, owner, p);
    }
    forall k, p | 0 <= k < |c| && 0 <= p < c[k][0] ensures InSomeBefore(c, p, k) {
      assert c[k][0] == seeds[k] && c[k][0] < |nears|;
      assert color[p] == 2 && owner[p] < k;
      var i :| 0 <= i < |c[owner[p]]| && c[owner[p]][i] == p;
    }
    forall k, i | 0 <= k < |c| && 0 <= i < |c[k]| ensures Reachable(nears, path, c[k][0], c[k][i]) {
      var p := c[k][i];
      assert p < |nears| && owner[p] == k;
      assert IsWalk(nears, path, walks[p]) && walks[p][0] == c[k][0];
    }
    forall k, i, b | 0 <= k < |c| && 0 <= i < |c[k]| && Linked(nears, path, c[k][i], b)
      ensures InSomeBefore(c, b, k + 1)
    {
      assert c[k][i] < |nears| && color[c[k][i]] == 2;
      PlacedIsListed(c, owner, b);
    }
  }

  lemma PlacedIsListed(c: seq<seq<PaneIndex>>, owner: seq<nat>, p: nat)
    requires p < |owner| && owner[p] < |c| && p in c[owner[p]]
    ensures InSomeBefore(c, p, owner[p] + 1)
  {
    var i :| 0 <= i < |c[owner[p]]| && c[owner[p]][i] == p;
  }

  /** Starting a search from an unplaced pane. */
  lemma StartSearch(nears: Nears, path: seq<LineIndex>, color: seq<int>,
                    c: seq<seq<PaneIndex>>, owner: seq<nat>, seeds: seq<nat>, walks: seq<seq<nat>>, id: nat)
    requires id < |nears| && Settled(nears, path, color, c, owner, seeds, walks, id) && color[id] != 2
    ensures Exploring(nears, path, color[id := 1], c + [[]], owner[id := |c|], seeds + [id], walks[id := [id]], id, [id])
  {
    StartTracked(nears, path, color, c, owner, seeds, walks, id);
  }

  /** The bookkeeping of a search started from an unplaced pane. */
  lemma StartTracked(nears: Nears, path: seq<LineIndex>, color: seq<int>,
                     c: seq<seq<PaneIndex>>, owner: seq<nat>, seeds: seq<nat>, walks: seq<seq<nat>>, id: nat)
    requires id < |nears| && Settled(nears, path, color, c, owner, seeds, walks, id) && color[id] != 2
    ensures Tracked(nears, path, color[id := 1], c + [[]], owner[id := |c|], seeds + [id], walks[id := [id]])
  {
    var color', c', owner', walks' := color[id := 1], c + [[]], owner[id := |c|], walks[id := [id]];
    assert color[id] == 0;
    forall k, i | 0 <= k < |c'| && 0 <= i < |c'[k]|
      ensures c'[k][i] < |nears| && color'[c'[k][i]] == 2 && owner'[c'[k][i]] == k
    {
      assert c'[k] == c[k];
    }
    forall p | 0 <= p < |nears| && color'[p] == 2 ensures owner'[p] < |c'| && p in c'[owner'[p]] {
      assert p != id && c'[owner[p]] == c[owner[p]];
    }
    StartSeeds(|nears|, color, c, owner, seeds, id);
  }

  /** The new seed is the lowest pane not yet placed. */
  lemma StartSeeds(n: nat, color: seq<int>, c: seq<seq<PaneIndex>>, owner: seq<nat>, seeds: seq<nat>, id: nat)
    requires |color| == n && |owner| == n && |seeds| == |c| && id < n && color[id] != 2
    requires SeedsLeast(n, color, owner, seeds) && PlacedListed(n, color, c, owner)
    requires forall p :: 0 <= p < id ==> color[p] == 2
    ensures SeedsLeast(n, color[id := 1], owner[id := |c|], seeds + [id])
  {
    var color', owner', seeds' := color[id := 1], owner[id := |c|], seeds + [id];
    forall k, p | 0 <= k < |seeds'| && 0 <= p < seeds'[k] && p < n ensures color'[p] == 2 && owner'[p] < k {
      if k < |seeds| {
        assert seeds'[k] == seeds[k];
      }
    }
  }

  /** Placing a seen pane keeps every seed the lowest unplaced pane of its time. */
  lemma PlaceSeeds(n: nat, color: seq<int>, owner: seq<nat>, seeds: seq<nat>, id1: nat)
    requires |color| == n && |owner| == n && id1 < n && color[id1] == 1
    requires SeedsLeast(n, color, owner, seeds)
    ensures SeedsLeast(n, color[id1 := 2], owner, seeds)
  {
  }

  /** Seeing an unseen pane does too. */
  lemma PushSeeds(n: nat, color: seq<int>, owner: seq<nat>, seeds: seq<nat>, id2: nat, o: nat)
    requires |color| == n && |owner| == n && id2 < n && color[id2] == 0
    requires SeedsLeast(n, color, owner, seeds)
    ensures SeedsLeast(n, color[id2 := 1], owner[id2 := o], seeds)
  {
  }

  /** Placing pane id1, bound for the last component, keeps the bookkeeping. */
  lemma PlaceTracked(nears: Nears, path: seq<LineIndex>, color: seq<int>,
                     c: seq<seq<PaneIndex>>, owner: seq<nat>, seeds: seq<nat>, walks: seq<seq<nat>>,
                     id1: nat)
    requires Tracked(nears, path, color, c, owner, seeds, walks) && |c| > 0
    requires id1 < |nears| && color[id1] == 1 && owner[id1] == |c| - 1
    requires c[|c| - 1] == [] ==> id1 == seeds[|c| - 1]
    ensures var g := |c| - 1;
      Tracked(nears, path, color[id1 := 2], c[g := c[g] + [id1]], owner, seeds, walks)
  {
    var n := |nears|;
    PlaceSeeds(n, color, owner, seeds, id1);
    PlaceListed(n, color, c, owner, id1);
    PlaceOwned(n, color, c, owner, id1);
    PlaceDistinct(n, color, c, owner, id1);
    PlaceFirst(c, seeds, id1);
    PlaceWalked(nears, path, color, c, owner, seeds, walks, id1);
  }

  lemma PlaceListed(n: nat, color: seq<int>, c: seq<seq<PaneIndex>>, owner: seq<nat>, id1: nat)
    requires |color| == n && |owner| == n && |c| > 0 && id1 < n && owner[id1] == |c| - 1
    requires ListedPlaced(n, color, c, owner)
    ensures var g := |c| - 1; ListedPlaced(n, color[id1 := 2], c[g := c[g] + [id1]], owner)
  {
    var g := |c| - 1;
    var color', c' := color[id1 := 2], c[g := c[g] + [id1]];
    forall k, i | 0 <= k < |c'| && 0 <= i < |c'[k]|
      ensures c'[k][i] < n && color'[c'[k][i]] == 2 && owner[c'[k][i]] == k
    {
      if k == g && i == |c[g]| {
      } else {
        assert c'[k][i] == c[k][i];
      }
    }
  }

  lemma PlaceOwned(n: nat, color: seq<int>, c: seq<seq<PaneIndex>>, owner: seq<nat>, id1: nat)
    requires |color| == n && |owner| == n && |c| > 0 && id1 < n && owner[id1] == |c| - 1
    requires PlacedListed(n, color, c, owner)
    ensures var g := |c| - 1; PlacedListed(n, color[id1 := 2], c[g := c[g] + [id1]], owner)
  {
    var g := |c| - 1;
    var color', c' := color[id1 := 2], c[g := c[g] + [id1]];
    forall p | 0 <= p < n && color'[p] == 2 ensures owner[p] < |c'| && p in c'[owner[p]] {
      if p == id1 {
        assert c'[g][|c[g]|] == id1;
      } else {
        assert p in c[owner[p]];
      }
    }
  }

  lemma PlaceDistinct(n: nat, color: seq<int>, c: seq<seq<PaneIndex>>, owner: seq<nat>, id1: nat)
    requires |color| == n && |owner| == n && |c| > 0 && id1 < n && color[id1] == 1
    requires ListedPlaced(n, color, c, owner) && ListsDistinct(c)
    ensures var g := |c| - 1; ListsDistinct(c[g := c[g] + [id1]])
  {
    var g := |c| - 1;
    var c' := c[g := c[g] + [id1]];
    forall k, i, j | 0 <= k < |c'| && 0 <= i < j < |c'[k]| ensures c'[k][i] != c'[k][j] {
      if k == g && j == |c[g]| {
        assert color[c[k][i]] == 2;
      }
    }
  }

  lemma PlaceFirst(c: seq<seq<PaneIndex>>, seeds: seq<nat>, id1: nat)
    requires |seeds| == |c| && |c| > 0 && SeedsFirst(c, seeds)
    requires c[|c| - 1] == [] ==> id1 == seeds[|c| - 1]
    ensures var g := |c| - 1; SeedsFirst(c[g := c[g] + [id1]], seeds)
  {
    var g := |c| - 1;
    var c' := c[g := c[g] + [id1]];
    forall k | 0 <= k < |c'| && c'[k] != [] ensures c'[k][0] == seeds[k] {
      if k != g || c[g] != [] {
        assert c'[k][0] == c[k][0];
      }
    }
  }

  lemma PlaceWalked(nears: Nears, path: seq<LineIndex>, color: seq<int>,
                    c: seq<seq<PaneIndex>>, owner: seq<nat>, seeds: seq<nat>, walks: seq<seq<nat>>, id1: nat)
    requires |color| == |nears| && |owner| == |nears| && |walks| == |nears| && |seeds| == |c| && |c| > 0
    requires id1 < |nears| && color[id1] == 1
    requires SeenWalked(nears, path, color, c, owner, seeds, walks)
    ensures var g := |c| - 1; SeenWalked(nears, path, color[id1 := 2], c[g := c[g] + [id1]], owner, seeds, walks)
  {
    var g := |c| - 1;
    var color', c' := color[id1 := 2], c[g := c[g] + [id1]];
    forall p | 0 <= p < |nears| && color'[p] != 0
      ensures owner[p] < |c'| && IsWalk(nears, path, walks[p]) &&
        walks[p][0] == seeds[owner[p]] && walks[p][|walks[p]| - 1] == p
    {
      assert color[p] != 0;
    }
  }

  /** Popping the top of a stack of distinct panes leaves exactly the others. */
  lemma PopStack(color: seq<int>, stack: seq<nat>, n: nat)
    requires |color| == n && stack != []
    requires forall i, j :: 0 <= i < j < |stack| ==> stack[i] != stack[j]
    requires forall p :: 0 <= p < n ==> (color[p] == 1 <==> p in stack)
    requires stack[|stack| - 1] < n
    ensures var id1, stack' := stack[|stack| - 1], stack[..|stack| - 1];
      forall p :: 0 <= p < n ==> (color[id1 := 2][p] == 1 <==> p in stack')
  {
    var id1, stack' := stack[|stack| - 1], stack[..|stack| - 1];
    forall p | 0 <= p < n ensures (color[id1 := 2][p] == 1 <==> p in stack') {
      if p in stack {
        var i :| 0 <= i < |stack| && stack[i] == p;
        if i < |stack| - 1 {
          assert stack'[i] == p;
        }
      }
      if p in stack' {
        var i :| 0 <= i < |stack'| && stack'[i] == p;
        assert stack[i] == p;
      }
    }
  }

  /** Popping pane `id1` off the stack and placing it in the last component. */
  lemma PlacePane(nears: Nears, path: seq<LineIndex>, color: seq<int>,
                  c: seq<seq<PaneIndex>>, owner: seq<nat>, seeds: seq<nat>, walks: seq<seq<nat>>,
                  id: nat, stack: seq<nat>)
    requires Exploring(nears, path, color, c, owner, seeds, walks, id, stack) && stack != []
    ensures var id1, g := stack[|stack| - 1], |c| - 1;
      && Searching(nears, path, color[id1 := 2], c[g := c[g] + [id1]], owner, seeds, walks, id, stack[..|stack| - 1])
      && ClosedExcept(nears, path, color[id1 := 2], owner, id1)
      && owner[id1] == g && id1 < |nears|
      && Unseen(color[id1 := 2]) == Unseen(color)
  {
    var id1, g := stack[|stack| - 1], |c| - 1;
    var color', c', stack' := color[id1 := 2], c[g := c[g] + [id1]], stack[..|stack| - 1];
    assert id1 in stack && color[id1] == 1;
    PlaceTracked(nears, path, color, c, owner, seeds, walks, id1);
    PopStack(color, stack, |nears|);
    PopDistinct(stack, |nears|);
    PlaceClosed(nears, path, color, owner, id1);
    PlaceUnseen(color, id1);
    forall k | 0 <= k < |c'| - 1 ensures c'[k] != [] {
      assert c'[k] == c[k];
    }
  }

  /** The rest of a stack of distinct panes is distinct. */
  lemma PopDistinct(stack: seq<nat>, n: nat)
    requires stack != [] && forall i :: 0 <= i < |stack| ==> stack[i] < n
    requires forall i, j :: 0 <= i < j < |stack| ==> stack[i] != stack[j]
    ensures var stack' := stack[..|stack| - 1];
      && (forall i :: 0 <= i < |stack'| ==> stack'[i] < n)
      && (forall i, j :: 0 <= i < j < |stack'| ==> stack'[i] != stack'[j])
  {
  }

  /** Placing a seen pane keeps every other placed pane closed. */
  lemma PlaceClosed(nears: Nears, path: seq<LineIndex>, color: seq<int>, owner: seq<nat>, id1: nat)
    requires |color| == |nears| == |owner| && id1 < |nears| && color[id1] == 1
    requires ClosedExcept(nears, path, color, owner, -1)
    ensures ClosedExcept(nears, path, color[id1 := 2], owner, id1)
  {
    var color' := color[id1 := 2];
    forall a: nat, b: nat | a < |nears| && a != id1 && color'[a] == 2 && Linked(nears, path, a, b)
      ensures b < |nears| && color'[b] != 0 && owner[b] <= owner[a]
    {
      assert color[a] == 2;
    }
  }

  /** Placing a seen pane leaves the unseen panes as they were. */
  lemma PlaceUnseen(color: seq<int>, id1: nat)
    requires id1 < |color| && color[id1] == 1
    ensures Unseen(color[id1 := 2]) == Unseen(color)
  {
    var color' := color[id1 := 2];
    forall p: nat | p < |color| ensures (color'[p] == 0 <==> color[p] == 0) {
    }
  }

  /** Seeing neighbour id2 of the placed pane id1 keeps the bookkeeping. */
  lemma PushTracked(nears: Nears, path: seq<LineIndex>, color: seq<int>,
                    c: seq<seq<PaneIndex>>, owner: seq<nat>, seeds: seq<nat>, walks: seq<seq<nat>>,
                    id1: nat, id2: nat)
    requires Tracked(nears, path, color, c, owner, seeds, walks) && |c| > 0
    requires id1 < |nears| && color[id1] == 2 && owner[id1] == |c| - 1
    requires id2 < |nears| && color[id2] == 0 && Linked(nears, path, id1, id2)
    ensures Tracked(nears, path, color[id2 := 1], c, owner[id2 := |c| - 1], seeds, walks[id2 := walks[id1] + [id2]])
  {
    var color', owner', walks' := color[id2 := 1], owner[id2 := |c| - 1], walks[id2 := walks[id1] + [id2]];
    PushSeeds(|nears|, color, owner, seeds, id2, |c| - 1);
    forall k, i | 0 <= k < |c| && 0 <= i < |c[k]|
      ensures c[k][i] < |nears| && color'[c[k][i]] == 2 && owner'[c[k][i]] == k
    {
      assert c[k][i] != id2;
    }
    assert SeenWalked(nears, path, color', c, owner', seeds, walks') by {
      WalkExtend(nears, path, walks[id1], id2);
    }
  }

  /** Pushing unseen neighbour id2 of the placed pane id1. */
  lemma PushNeighbour(nears: Nears, path: seq<LineIndex>, color: seq<int>,
                      c: seq<seq<PaneIndex>>, owner: seq<nat>, seeds: seq<nat>, walks: seq<seq<nat>>,
                      id: nat, stack: seq<nat>, id1: nat, id2: nat)
    requires Searching(nears, path, color, c, owner, seeds, walks, id, stack)
    requires ClosedExcept(nears, path, color, owner, id1)
    requires id1 < |nears| && color[id1] == 2 && owner[id1] == |c| - 1
    requires id2 < |nears| && color[id2] == 0 && Linked(nears, path, id1, id2)
    ensures var color', owner' := color[id2 := 1], owner[id2 := |c| - 1];
      && Searching(nears, path, color', c, owner', seeds, walks[id2 := walks[id1] + [id2]], id, stack + [id2])
      && ClosedExcept(nears, path, color', owner', id1)
      && Unseen(color') == Unseen(color) - {id2}
  {
    var color', owner', walks', stack' := color[id2 := 1], owner[id2 := |c| - 1], walks[id2 := walks[id1] + [id2]], stack + [id2];
    PushTracked(nears, path, color, c, owner, seeds, walks, id1, id2);
    forall i, j | 0 <= i < j < |stack'| ensures stack'[i] != stack'[j] {
      if j == |stack| {
        assert stack[i] in stack;
      }
    }
    forall p | 0 <= p < |nears| ensures (color'[p] == 1 <==> p in stack') {
      if p in stack' && p != id2 {
        var i :| 0 <= i < |stack'| && stack'[i] == p;
        assert stack[i] == p;
      }
    }
    assert ClosedExcept(nears, path, color', owner', id1) by {
      forall a: nat, b: nat | a < |nears| && a != id1 && color'[a] == 2 && Linked(nears, path, a, b)
        ensures b < |nears| && color'[b] != 0 && owner'[b] <= owner'[a]
      {
        assert color[a] == 2 && color[b] != 0;
      }
    }
    assert Unseen(color') == Unseen(color) - {id2};
  }

  /** Once every neighbour of id1 has been looked at, id1 is closed too. */
  lemma CloseNeighbours(nears: Nears, path: seq<LineIndex>, color: seq<int>,
                        c: seq<seq<PaneIndex>>, owner: seq<nat>, seeds: seq<nat>, walks: seq<seq<nat>>,
                        id: nat, stack: seq<nat>, id1: nat)
    requires NearsInRange(nears)
    requires Searching(nears, path, color, c, owner, seeds, walks, id, stack)
    requires ClosedExcept(nears, path, color, owner, id1)
    requires id1 < |nears| && color[id1] == 2 && owner[id1] == |c| - 1
    requires NeighboursSeen(nears, path, color, id1, |nears[id1]|)
    ensures ClosedExcept(nears, path, color, owner, -1)
  {
    forall b: nat | Linked(nears, path, id1, b) ensures b < |nears| && color[b] != 0 && owner[b] <= owner[id1] {
      var j :| 0 <= j < |nears[id1]| && nears[id1][j].1 == b && nears[id1][j].0 !in path;
      assert color[nears[id1][j].1] != 0;
    }
  }

  /** A search whose stack has run dry leaves panes 0 .. id placed. */
  lemma FinishSearch(nears: Nears, path: seq<LineIndex>, color: seq<int>,
                     c: seq<seq<PaneIndex>>, owner: seq<nat>, seeds: seq<nat>, walks: seq<seq<nat>>, id: nat)
    requires Exploring(nears, path, color, c, owner, seeds, walks, id, [])
    ensures Settled(nears, path, color, c, owner, seeds, walks, id + 1)
  {
  }

  /** One pass of the inner loop of `find_components`: pushes pane id2, listed
      by placed pane id1 through lineIndex, when that line is off the path and
      id2 has not been seen. */
  method PushIfUnseen(nears: Nears, path: seq<LineIndex>, color: array<int>, components: seq<seq<PaneIndex>>,
                      id: nat, id1: nat, lineIndex: LineIndex, id2: nat, stack0: seq<nat>,
                      ghost owner0: seq<nat>, ghost seeds: seq<nat>, ghost walks0: seq<seq<nat>>)
    returns (stack: seq<nat>, ghost owner: seq<nat>, ghost walks: seq<seq<nat>>)
    requires color.Length == |nears| && id1 < |nears| && id2 < |nears| && (lineIndex, id2) in nears[id1]
    requires Searching(nears, path, color[..], components, owner0, seeds, walks0, id, stack0)
    requires color[id1] == 2 && owner0[id1] == |components| - 1
    requires ClosedExcept(nears, path, color[..], owner0, id1)
    modifies color
    ensures Searching(nears, path, color[..], components, owner, seeds, walks, id, stack)
    ensures color[id1] == 2 && owner[id1] == |components| - 1
    ensures ClosedExcept(nears, path, color[..], owner, id1)
    ensures lineIndex !in path ==> color[id2] != 0
    ensures SeenKept(old(color[..]), color[..])
    ensures Unseen(color[..]) <= Unseen(old(color[..]))
    ensures Unseen(color[..]) == Unseen(old(color[..])) ==> stack == stack0
  {
    stack, owner, walks := stack0, owner0, walks0;
    if lineIndex !in path && color[id2] == 0 {
      assert Linked(nears, path, id1, id2) by {
        var j :| 0 <= j < |nears[id1]| && nears[id1][j] == (lineIndex, id2);
      }
      PushNeighbour(nears, path, color[..], components, owner, seeds, walks, id, stack, id1, id2);
      ghost var before := color[..];
      color[id2] := 1;
      assert color[..] == before[id2 := 1];
      stack := stack + [id2];
      owner := owner[id2 := |components| - 1];
      walks := walks[id2 := walks[id1] + [id2]];
      assert Unseen(color[..]) != Unseen(before) by {
        assert id2 in Unseen(before);
      }
    }
  }

  /** The inner loop of `find_components`: pushes every unseen pane that
      placed pane `id1` lists through a line off the path. */
  method VisitNeighbours(nears: Nears, path: seq<LineIndex>, color: array<int>, components: seq<seq<PaneIndex>>,
                         id: nat, id1: nat, stack0: seq<nat>,
                         ghost owner0: seq<nat>, ghost seeds: seq<nat>, ghost walks0: seq<seq<nat>>)
    returns (stack: seq<nat>, ghost owner: seq<nat>, ghost walks: seq<seq<nat>>)
    requires NearsInRange(nears) && color.Length == |nears|
    requires Searching(nears, path, color[..], components, owner0, seeds, walks0, id, stack0)
    requires id1 < |nears| && color[id1] == 2 && owner0[id1] == |components| - 1
    requires ClosedExcept(nears, path, color[..], owner0, id1)
    modifies color
    ensures Searching(nears, path, color[..], components, owner, seeds, walks, id, stack)
    ensures ClosedExcept(nears, path, color[..], owner, -1)
    ensures Unseen(color[..]) <= Unseen(old(color[..]))
    ensures Unseen(color[..]) == Unseen(old(color[..])) ==> stack == stack0
  {
    stack, owner, walks := stack0, owner0, walks0;
    ghost var unseen0 := Unseen(color[..]);
    var near := nears[id1];
    for j := 0 to |near|
      invariant Searching(nears, path, color[..], components, owner, seeds, walks, id, stack)
      invariant color[id1] == 2 && owner[id1] == |components| - 1
      invariant ClosedExcept(nears, path, color[..], owner, id1)
      invariant NeighboursSeen(nears, path, color[..], id1, j)
      invariant Unseen(color[..]) <= unseen0 && (Unseen(color[..]) == unseen0 ==> stack == stack0)
    {
      ghost var before, stackBefore := color[..], stack;
      var (lineIndex, id2) := near[j];
      assert near[j] in nears[id1];
      stack, owner, walks := PushIfUnseen(nears, path, color, components, id, id1, lineIndex, id2, stack,
                                          owner, seeds, walks);
      SeenExtends(nears, path, before, color[..], id1, j);
    }
    CloseNeighbours(nears, path, color[..], components, owner, seeds, walks, id, stack, id1);
  }

  lemma ProperSubsetSmaller(a: set<nat>, b: set<nat>)
    requires a <= b && a != b
    ensures |a| < |b|
  {
    assert !(b <= a);
    var x :| x in b && x !in a;
    SubsetNoLarger(a, b - {x});
  }

  lemma {:induction false} SubsetNoLarger(a: set<nat>, b: set<nat>)
    requires a <= b
    ensures |a| <= |b|
    decreases |a|
  {
    if a != {} {
      var x :| x in a;
      SubsetNoLarger(a - {x}, b - {x});
    }
  }

  /** The pop at the head of the `while let Some(id1) = stack.pop()` loop:
      pane `id1` is placed and pushed onto the component being collected. */
  method PopAndPlace(nears: Nears, path: seq<LineIndex>, color: array<int>, components0: seq<seq<PaneIndex>>,
                     id: nat, stack0: seq<nat>, ghost owner: seq<nat>, ghost seeds: seq<nat>, ghost walks: seq<seq<nat>>)
    returns (components: seq<seq<PaneIndex>>, id1: nat, stack: seq<nat>)
    requires NearsInRange(nears) && color.Length == |nears|
    requires Exploring(nears, path, color[..], components0, owner, seeds, walks, id, stack0) && stack0 != []
    modifies color
    ensures id1 == stack0[|stack0| - 1] && stack == stack0[..|stack0| - 1]
    ensures components == components0[|components0| - 1 := components0[|components0| - 1] + [id1]]
    ensures color[..] == old(color[..])[id1 := 2]
    ensures Searching(nears, path, color[..], components, owner, seeds, walks, id, stack)
    ensures ClosedExcept(nears, path, color[..], owner, id1)
    ensures owner[id1] == |components| - 1 && id1 < |nears|
    ensures Unseen(color[..]) == Unseen(old(color[..]))
  {
    ghost var before := color[..];
    PlacePane(nears, path, color[..], components0, owner, seeds, walks, id, stack0);
    var groupId := |components0| - 1;
    id1 := stack0[|stack0| - 1];
    stack := stack0[..|stack0| - 1];
    color[id1] := 2;
    assert color[..] == before[id1 := 2];
    components := components0[groupId := components0[groupId] + [id1]];
  }

  /** One turn of the `while let Some(id1) = stack.pop()` loop. */
  method PlaceTop(nears: Nears, path: seq<LineIndex>, color: array<int>, components0: seq<seq<PaneIndex>>,
                  id: nat, stack0: seq<nat>, ghost owner0: seq<nat>, ghost seeds: seq<nat>, ghost walks0: seq<seq<nat>>)
    returns (components: seq<seq<PaneIndex>>, stack: seq<nat>, ghost owner: seq<nat>, ghost walks: seq<seq<nat>>)
    requires NearsInRange(nears) && color.Length == |nears|
    requires Exploring(nears, path, color[..], components0, owner0, seeds, walks0, id, stack0) && stack0 != []
    modifies color
    ensures Exploring(nears, path, color[..], components, owner, seeds, walks, id, stack)
    ensures components == components0[|components0| - 1 := components0[|components0| - 1] + [stack0[|stack0| - 1]]]
    ensures Unseen(color[..]) < Unseen(old(color[..])) ||
            (Unseen(color[..]) == Unseen(old(color[..])) && |stack| < |stack0|)
  {
    var id1, stack1;
    components, id1, stack1 := PopAndPlace(nears, path, color, components0, id, stack0, owner0, seeds, walks0);
    stack, owner, walks := VisitNeighbours(nears, path, color, components, id, id1, stack1, owner0, seeds, walks0);
    assert components[|components| - 1] != [];
  }

  /** One search of `find_components`: from unplaced pane `id`, collects a new
      component with the `while let Some(id1) = stack.pop()` loop. */
  method ExploreFrom(nears: Nears, path: seq<LineIndex>, color: array<int>, components0: seq<seq<PaneIndex>>,
                     id: nat, ghost owner0: seq<nat>, ghost seeds0: seq<nat>, ghost walks0: seq<seq<nat>>)
    returns (components: seq<seq<PaneIndex>>, ghost owner: seq<nat>, ghost seeds: seq<nat>, ghost walks: seq<seq<nat>>)
    requires NearsInRange(nears) && color.Length == |nears| && id < |nears|
    requires Settled(nears, path, color[..], components0, owner0, seeds0, walks0, id)
    requires color[id] != 2
    modifies color
    ensures Settled(nears, path, color[..], components, owner, seeds, walks, id + 1)
    ensures |components| == |components0| + 1 && components[..|components0|] == components0
    ensures components[|components0|][0] == id
  {
    StartSearch(nears, path, color[..], components0, owner0, seeds0, walks0, id);
    ghost var before := color[..];
    components := components0 + [[]];
    seeds := seeds0 + [id];
    var stack: seq<nat> := [id];
    color[id] := 1;
    assert color[..] == before[id := 1];
    owner := owner0[id := |components0|];
    walks := walks0[id := [id]];

    while stack != []
      invariant Exploring(nears, path, color[..], components, owner, seeds, walks, id, stack)
      invariant |components| == |components0| + 1 && components[..|components0|] == components0
      invariant seeds == seeds0 + [id]
      decreases |Unseen(color[..])|, |stack|
    {
      ghost var unseen0 := Unseen(color[..]);
      components, stack, owner, walks := PlaceTop(nears, path, color, components, id, stack, owner, seeds, walks);
      if Unseen(color[..]) != unseen0 {
        ProperSubsetSmaller(Unseen(color[..]), unseen0);
      }
    }
    FinishSearch(nears, path, color[..], components, owner, seeds, walks, id);
  }

  /** `find_components`: a flood fill over the pane dual graph with an explicit
      stack, starting a new component at every pane not yet placed. */
  method FindComponents(nears: Nears, path: seq<LineIndex>) returns (components: seq<seq<PaneIndex>>)
    requires NearsInRange(nears)
    ensures ComponentSplit(nears, path, components)
  {
    var n := |nears|;
    var color := new int[n](_ => 0);
    components := [];
    ghost var owner: seq<nat> := seq(n, _ => 0);
    ghost var seeds: seq<nat> := [];
    ghost var walks: seq<seq<nat>> := seq(n, p => [p]);
    assert color[..] == seq(n, _ => 0);
    NothingSettled(nears, path);

    for id := 0 to n
      invariant color.Length == n
      invariant Settled(nears, path, color[..], components, owner, seeds, walks, id)
    {
      if color[id] == 2 {
        SettledSkip(nears, path, color[..], components, owner, seeds, walks, id);
        continue;
      }
      components, owner, seeds, walks := ExploreFrom(nears, path, color, components, id, owner, seeds, walks);
    }
    SettledIsSplit(nears, path, color[..], components, owner, seeds, walks);
  }

  /** Before the first search nothing is seen and there are no components. */
  lemma NothingSettled(nears: Nears, path: seq<LineIndex>)
    ensures var n := |nears|;
      Settled(nears, path, seq(n, _ => 0), [], seq(n, _ => 0), [], seq(n, p => [p]), 0)
  {
  }

  /** A pane already placed by an earlier search starts no new one. */
  lemma SettledSkip(nears: Nears, path: seq<LineIndex>, color: seq<int>,
                    c: seq<seq<PaneIndex>>, owner: seq<nat>, seeds: seq<nat>, walks: seq<seq<nat>>, id: nat)
    requires Settled(nears, path, color, c, owner, seeds, walks, id) && id < |nears| && color[id] == 2
    ensures Settled(nears, path, color, c, owner, seeds, walks, id + 1)
  {
  }

  // ---------------------------------------------------------------------------
  // The verdict

  /** A `SolutionChecker`: the puzzle, the two paths and the pane components. */
  datatype Checker = Checker(puzzle: Puzzle, dotPath: seq<DotIndex>, linePath: seq<LineIndex>,
                             components: seq<seq<PaneIndex>>)

  /** `Result<SolutionChecker, SolutionError>`. */
  datatype Construction = Built(checker: Checker) | Failed(error: SolutionError)

  /** The path ends on an end dot. */
  predicate EndsAtEnd(p: Puzzle, dotPath: seq<DotIndex>)
    requires dotPath != []
  {
    dotPath[|dotPath| - 1] in p.endDots
  }

  /** Dot d's constraint is met: a hexagon dot is on the path. */
  predicate DotRespected(p: Puzzle, dotPath: seq<DotIndex>, d: DotIndex)
    requires d in p.dotComplexity
  {
    match p.dotComplexity[d]
    case BlackHexagon => d in dotPath
  }

  ghost predicate DotsRespected(p: Puzzle, dotPath: seq<DotIndex>) {
    forall d :: d in p.dotComplexity ==> DotRespected(p, dotPath, d)
  }

  /** Line l's constraint is met: a hexagon line is on the path, a broken line
      is not. */
  predicate LineRespected(p: Puzzle, linePath: seq<LineIndex>, l: LineIndex)
    requires l in p.lineComplexity
  {
    match p.lineComplexity[l]
    case BlackHexagon => l in linePath
    case LineBreak => l !in linePath
  }

  ghost predicate LinesRespected(p: Puzzle, linePath: seq<LineIndex>) {
    forall l :: l in p.lineComplexity ==> LineRespected(p, linePath, l)
  }

  /** The component holds squares of two different colours. */
  ghost predicate Mixed(component: seq<PaneIndex>, pc: map<PaneIndex, PaneComplexity>) {
    exists i, j :: 0 <= i < |component| && 0 <= j < |component| &&
      component[i] in pc && component[j] in pc && pc[component[i]].color != pc[component[j]].color
  }

  ghost predicate RegionsUniform(components: seq<seq<PaneIndex>>, pc: map<PaneIndex, PaneComplexity>) {
    forall k :: 0 <= k < |components| ==> !Mixed(components[k], pc)
  }

  /** `SolutionChecker::new`: a trace that rests on a line is incomplete;
      otherwise the checker holds the paths and the components of the panes
      cut along the line path. */
  method NewChecker(puzzle: Puzzle, dotPath: seq<DotIndex>, linePath: seq<LineIndex>, nowAtDot: bool)
    returns (r: Construction)
    requires NearsInRange(puzzle.paneNears)
    ensures r.Failed? <==> !nowAtDot
    ensures r.Failed? ==> r.error == Incomplete
    ensures r.Built? ==>
      (r.checker.puzzle == puzzle && r.checker.dotPath == dotPath &&
       r.checker.linePath == linePath && ComponentSplit(puzzle.paneNears, linePath, r.checker.components))
  {
    if !nowAtDot {
      return Failed(Incomplete);
    }
    var components := FindComponents(puzzle.paneNears, linePath);
    return Built(Checker(puzzle, dotPath, linePath, components));
  }

  /** `check_correctness`: the last dot of the path must be an end dot. */
  function CheckCorrectness(c: Checker): (r: Outcome)
    requires c.dotPath != []
    ensures r == Ok <==> c.dotPath[|c.dotPath| - 1] in c.puzzle.endDots
    ensures r != Ok ==> r == Err(Incomplete)
  {
    var endDot := c.dotPath[|c.dotPath| - 1];
    if endDot in c.puzzle.endDots then Ok else Err(Incomplete)
  }

  /** `check_dots`: scans the dot constraints, in an unspecified order, and
      reports the first hexagon dot that is not on the path. */
  method CheckDots(c: Checker) returns (r: Outcome)
    ensures r == Ok <==> DotsRespected(c.puzzle, c.dotPath)
    ensures r != Ok ==>
      (r.Err? && r.error.DotError? && r.error.dot in c.puzzle.dotComplexity &&
       !DotRespected(c.puzzle, c.dotPath, r.error.dot))
  {
    var dots := c.puzzle.dotComplexity;
    var remaining := dots.Keys;
    while remaining != {}
      invariant remaining <= dots.Keys
      invariant forall d :: d in dots && d !in remaining ==> DotRespected(c.puzzle, c.dotPath, d)
      decreases |remaining|
    {
      var dotIndex :| dotIndex in remaining;
      match dots[dotIndex] {
        case BlackHexagon =>
          if dotIndex !in c.dotPath {
            return Err(DotError(dotIndex));
          }
      }
      remaining := remaining - {dotIndex};
    }
    return Ok;
  }

  /** `check_lines`: scans the line constraints, in an unspecified order, and
      reports the first hexagon line off the path or broken line on it. */
  method CheckLines(c: Checker) returns (r: Outcome)
    ensures r == Ok <==> LinesRespected(c.puzzle, c.linePath)
    ensures r != Ok ==>
      (r.Err? && r.error.LineError? && r.error.line in c.puzzle.lineComplexity &&
       !LineRespected(c.puzzle, c.linePath, r.error.line))
  {
    var lines := c.puzzle.lineComplexity;
    var remaining := lines.Keys;
    while remaining != {}
      invariant remaining <= lines.Keys
      invariant forall l :: l in lines && l !in remaining ==> LineRespected(c.puzzle, c.linePath, l)
      decreases |remaining|
    {
      var lineIndex :| lineIndex in remaining;
      match lines[lineIndex] {
        case BlackHexagon =>
          if lineIndex !in c.linePath {
            return Err(LineError(lineIndex));
          }
        case LineBreak =>
          if lineIndex in c.linePath {
            return Err(LineError(lineIndex));
          }
      }
      remaining := remaining - {lineIndex};
    }
    return Ok;
  }

  /** The constraints of the constrained panes of a component, in order
      (`filter_map` over `map.get`). */
  function Complexities(component: seq<PaneIndex>, pc: map<PaneIndex, PaneComplexity>): seq<PaneComplexity> {
    if component == [] then []
    else if component[0] in pc then [pc[component[0]]] + Complexities(component[1..], pc)
    else Complexities(component[1..], pc)
  }

  /** The filtered list holds the constraint of every constrained pane, and
      nothing else. */
  lemma {:induction false} ComplexitiesMembers(component: seq<PaneIndex>, pc: map<PaneIndex, PaneComplexity>)
    ensures forall x :: x in Complexities(component, pc) <==>
      exists j :: 0 <= j < |component| && component[j] in pc && pc[component[j]] == x
    decreases |component|
  {
    if component != [] {
      var rest := component[1..];
      ComplexitiesMembers(rest, pc);
      forall x ensures x in Complexities(component, pc) <==>
        exists j :: 0 <= j < |component| && component[j] in pc && pc[component[j]] == x
      {
        if x in Complexities(rest, pc) {
          var j :| 0 <= j < |rest| && rest[j] in pc && pc[rest[j]] == x;
          assert component[j + 1] == rest[j];
        }
        if exists j :: 0 <= j < |component| && component[j] in pc && pc[component[j]] == x {
          var j :| 0 <= j < |component| && component[j] in pc && pc[component[j]] == x;
          if j > 0 {
            assert rest[j - 1] == component[j];
          }
        }
      }
    }
  }

  /** The colours of the squares in s. */
  ghost function Colours(s: seq<PaneComplexity>): set<ComplexityColor> {
    set i | 0 <= i < |s| :: s[i].color
  }

  /** How many squares in s have colour col. */
  function Count(s: seq<PaneComplexity>, col: ComplexityColor): nat {
    if s == [] then 0 else Count(s[..|s| - 1], col) + (if s[|s| - 1].color == col then 1 else 0)
  }

  /** Over two colours, a set of colours has more than one member exactly when
      it holds both. */
  lemma TwoColours(k: set<ComplexityColor>)
    ensures |k| > 1 <==> Black in k && White in k
  {
    forall col | col in k ensures col == Black || col == White {
      assert col.Black? || col.White?;
    }
    if Black in k && White in k {
      assert k == {Black, White};
    } else if Black in k {
      assert k == {Black};
    } else if White in k {
      assert k == {White};
    } else {
      assert k == {};
    }
  }

  /** The per-colour square counts of `check_panes`' inner loop. */
  method CountSquares(s: seq<PaneComplexity>) returns (squares: map<ComplexityColor, nat>)
    ensures squares.Keys == Colours(s)
    ensures forall col :: col in squares ==> squares[col] == Count(s, col) > 0
  {
    squares := map[];
    for i := 0 to |s|
      invariant squares.Keys == Colours(s[..i])
      invariant forall col :: col in squares ==> squares[col] == Count(s[..i], col) > 0
      invariant forall col :: col !in squares ==> Count(s[..i], col) == 0
    {
      assert s[..i + 1][..i] == s[..i];
      match s[i] {
        case Square(color) =>
          var x := if color in squares then squares[color] else 0;
          squares := squares[color := x + 1];
      }
    }
    assert s[..|s|] == s;
  }

  /** The squares of a complexity list have two colours exactly when the
      component is mixed. */
  lemma MixedIffTwoColours(component: seq<PaneIndex>, pc: map<PaneIndex, PaneComplexity>)
    ensures Mixed(component, pc) <==> |Colours(Complexities(component, pc))| > 1
  {
    var s := Complexities(component, pc);
    TwoColours(Colours(s));
    ComplexitiesMembers(component, pc);
    if Mixed(component, pc) {
      var i, j :| 0 <= i < |component| && 0 <= j < |component| &&
        component[i] in pc && component[j] in pc && pc[component[i]].color != pc[component[j]].color;
      assert pc[component[i]] in s && pc[component[j]] in s;
      var i' :| 0 <= i' < |s| && s[i'] == pc[component[i]];
      var j' :| 0 <= j' < |s| && s[j'] == pc[component[j]];
      assert s[i'].color in Colours(s) && s[j'].color in Colours(s);
    }
    if Black in Colours(s) && White in Colours(s) {
      var i :| 0 <= i < |s| && s[i].color == Black;
      var j :| 0 <= j < |s| && s[j].color == White;
      assert s[i] in s && s[j] in s;
      var i' :| 0 <= i' < |component| && component[i'] in pc && pc[component[i']] == s[i];
      var j' :| 0 <= j' < |component| && component[j'] in pc && pc[component[j']] == s[j];
    }
  }

  /** `check_panes`: counts the squares of each colour in every component and
      fails as soon as one component has squares of more than one colour. */
  method CheckPanes(c: Checker) returns (r: Outcome)
    ensures r == Ok <==> RegionsUniform(c.components, c.puzzle.paneComplexity)
    ensures r != Ok ==> r == Err(PaneError)
  {
    var pc := c.puzzle.paneComplexity;
    for k := 0 to |c.components|
      invariant forall k' :: 0 <= k' < k ==> !Mixed(c.components[k'], pc)
    {
      var component := c.components[k];
      var componentComplexity := Complexities(component, pc);
      var squares := CountSquares(componentComplexity);
      MixedIffTwoColours(component, pc);
      if |squares.Keys| > 1 {
        return Err(PaneError);
      }
    }
    return Ok;
  }

  /** The verdict of `check_solution`: construction, correctness, dots, lines
      and panes are judged in this order and the first stage that fails
      decides the error. */
  ghost predicate Judged(puzzle: Puzzle, dotPath: seq<DotIndex>, linePath: seq<LineIndex>, nowAtDot: bool,
                         components: seq<seq<PaneIndex>>, r: Outcome)
    requires nowAtDot ==> dotPath != []
  {
    if !nowAtDot then r == Err(Incomplete)
    else
      && ComponentSplit(puzzle.paneNears, linePath, components)
      && if !EndsAtEnd(puzzle, dotPath) then r == Err(Incomplete)
         else if !DotsRespected(puzzle, dotPath) then
           r.Err? && r.error.DotError? && r.error.dot in puzzle.dotComplexity &&
           !DotRespected(puzzle, dotPath, r.error.dot)
         else if !LinesRespected(puzzle, linePath) then
           r.Err? && r.error.LineError? && r.error.line in puzzle.lineComplexity &&
           !LineRespected(puzzle, linePath, r.error.line)
         else if !RegionsUniform(components, puzzle.paneComplexity) then r == Err(PaneError)
         else r == Ok
  }

  /** `check_solution`, on the four fields it reads from the tracer. */
  method CheckSolution(puzzle: Puzzle, dotPath: seq<DotIndex>, linePath: seq<LineIndex>, nowAtDot: bool)
    returns (r: Outcome, ghost components: seq<seq<PaneIndex>>)
    requires NearsInRange(puzzle.paneNears)
    requires nowAtDot ==> dotPath != []
    ensures Judged(puzzle, dotPath, linePath, nowAtDot, components, r)
  {
    components := [];
    var built := NewChecker(puzzle, dotPath, linePath, nowAtDot);
    if built.Failed? {
      return Err(built.error), components;
    }
    var checker := built.checker;
    components := checker.components;
    r := CheckCorrectness(checker);
    if r.Err? {
      return;
    }
    r := CheckDots(checker);
    if r.Err? {
      return;
    }
    r := CheckLines(checker);
    if r.Err? {
      return;
    }
    r := CheckPanes(checker);
  }

  // ---------------------------------------------------------------------------
  // Components are the reachability classes

  /** The panes of w in reverse order. */
  function Reversed(w: seq<nat>): (r: seq<nat>)
    ensures |r| == |w| && forall i :: 0 <= i < |w| ==> r[i] == w[|w| - 1 - i]
  {
    seq(|w|, i requires 0 <= i < |w| => w[|w| - 1 - i])
  }

  lemma ReachableSymmetric(nears: Nears, path: seq<LineIndex>, a: nat, b: nat)
    requires LinksSymmetric(nears, path) && Reachable(nears, path, a, b)
    ensures Reachable(nears, path, b, a)
  {
    var w :| IsWalk(nears, path, w) && w[0] == a && w[|w| - 1] == b;
    var r := Reversed(w);
    forall i | 0 <= i < |r| - 1 ensures Linked(nears, path, r[i], r[i + 1]) {
      assert Linked(nears, path, w[|w| - 2 - i], w[|w| - 1 - i]);
    }
    assert IsWalk(nears, path, r) && r[0] == b && r[|r| - 1] == a;
  }

  lemma ReachableTransitive(nears: Nears, path: seq<LineIndex>, a: nat, b: nat, d: nat)
    requires Reachable(nears, path, a, b) && Reachable(nears, path, b, d)
    ensures Reachable(nears, path, a, d)
  {
    var w1 :| IsWalk(nears, path, w1) && w1[0] == a && w1[|w1| - 1] == b;
    var w2 :| IsWalk(nears, path, w2) && w2[0] == b && w2[|w2| - 1] == d;
    var w := w1 + w2[1..];
    forall i | 0 <= i < |w| - 1 ensures Linked(nears, path, w[i], w[i + 1]) {
      if i < |w1| - 1 {
        assert w[i] == w1[i] && w[i + 1] == w1[i + 1];
      } else {
        var i2 := i - |w1| + 1;
        assert w[i] == w2[i2] && w[i + 1] == w2[i2 + 1];
      }
    }
    assert IsWalk(nears, path, w) && w[0] == a && w[|w| - 1] == d;
  }

  /** In a component split, an uncut adjacency of c[k][i] leads to a pane of
      component k or an earlier one. */
  lemma SplitLinkEarlier(nears: Nears, path: seq<LineIndex>, c: seq<seq<PaneIndex>>, k: nat, i: nat, b: nat)
    returns (k': nat, i': nat)
    requires ComponentSplit(nears, path, c) && k < |c| && i < |c[k]|
    requires Linked(nears, path, c[k][i], b)
    ensures k' <= k && i' < |c[k']| && c[k'][i'] == b
  {
    assert InSomeBefore(c, b, k + 1);
    k', i' :| 0 <= k' < k + 1 && k' < |c| && 0 <= i' < |c[k']| && c[k'][i'] == b;
  }

  /** A pane linked both ways with a member of component k is in component k. */
  lemma MutuallyLinkedSameComponent(nears: Nears, path: seq<LineIndex>, c: seq<seq<PaneIndex>>, k: nat, a: nat, b: nat)
    requires ComponentSplit(nears, path, c) && k < |c| && a in c[k]
    requires Linked(nears, path, a, b) && Linked(nears, path, b, a)
    ensures b in c[k]
  {
    var i :| 0 <= i < |c[k]| && c[k][i] == a;
    var k', i' := SplitLinkEarlier(nears, path, c, k, i, b);
    var k'', i'' := SplitLinkEarlier(nears, path, c, k', i', a);
    assert c[k''][i''] == c[k][i];
    assert k' == k;
  }

  lemma {:induction false} WalkStaysInComponent(nears: Nears, path: seq<LineIndex>, c: seq<seq<PaneIndex>>, k: nat, w: seq<nat>)
    requires ComponentSplit(nears, path, c) && LinksSymmetric(nears, path) && k < |c|
    requires IsWalk(nears, path, w) && w[0] in c[k]
    ensures w[|w| - 1] in c[k]
    decreases |w|
  {
    if |w| > 1 {
      var v := w[..|w| - 1];
      assert IsWalk(nears, path, v) by {
        forall i | 0 <= i < |v| - 1 ensures Linked(nears, path, v[i], v[i + 1]) {
          assert v[i] == w[i] && v[i + 1] == w[i + 1];
        }
      }
      WalkStaysInComponent(nears, path, c, k, v);
      assert Linked(nears, path, w[|w| - 2], w[|w| - 1]);
      MutuallyLinkedSameComponent(nears, path, c, k, w[|w| - 2], w[|w| - 1]);
    }
  }

  /** Under symmetric links, the component holding pane a is exactly the set of
      panes reachable from a. */
  lemma ComponentIsReachableClass(nears: Nears, path: seq<LineIndex>, c: seq<seq<PaneIndex>>, k: nat, a: nat, b: nat)
    requires ComponentSplit(nears, path, c) && LinksSymmetric(nears, path) && k < |c| && a in c[k]
    ensures Reachable(nears, path, a, b) <==> b in c[k]
  {
    if Reachable(nears, path, a, b) {
      var w :| IsWalk(nears, path, w) && w[0] == a && w[|w| - 1] == b;
      WalkStaysInComponent(nears, path, c, k, w);
    }
    if b in c[k] {
      var i :| 0 <= i < |c[k]| && c[k][i] == a;
      var j :| 0 <= j < |c[k]| && c[k][j] == b;
      assert Reachable(nears, path, c[k][0], a) && Reachable(nears, path, c[k][0], b);
      ReachableSymmetric(nears, path, c[k][0], a);
      ReachableTransitive(nears, path, a, c[k][0], b);
    }
  }

  /** Uncut adjacencies are symmetric when labels are, and with an empty path
      when pane indices are. */
  lemma LabelsGiveSymmetricLinks(nears: Nears, path: seq<LineIndex>)
    requires LabelsSymmetric(nears) && NearsInRange(nears)
    ensures LinksSymmetric(nears, path)
  {
    forall a: nat, b: nat | Linked(nears, path, a, b) ensures Linked(nears, path, b, a) {
      var j :| 0 <= j < |nears[a]| && nears[a][j].1 == b && nears[a][j].0 !in path;
      var j' :| 0 <= j' < |nears[b]| && nears[b][j'] == (nears[a][j].0, a);
    }
  }

  /** With line-symmetric labels, two panes adjacent through a line off the
      path land in the same component. */
  lemma UncutNeighboursShareComponent(nears: Nears, path: seq<LineIndex>, c: seq<seq<PaneIndex>>,
                                      k: nat, a: nat, b: nat)
    requires LabelsSymmetric(nears) && NearsInRange(nears)
    requires ComponentSplit(nears, path, c) && k < |c| && a in c[k]
    requires Linked(nears, path, a, b)
    ensures b in c[k]
  {
    LabelsGiveSymmetricLinks(nears, path);
    MutuallyLinkedSameComponent(nears, path, c, k, a, b);
  }

  lemma EmptyPathSymmetricLinks(nears: Nears)
    requires NeighboursSymmetric(nears) && NearsInRange(nears)
    ensures LinksSymmetric(nears, [])
  {
    forall a: nat, b: nat | Linked(nears, [], a, b) ensures Linked(nears, [], b, a) {
      var j :| 0 <= j < |nears[a]| && nears[a][j].1 == b;
      var j' :| 0 <= j' < |nears[b]| && nears[b][j'].1 == a;
    }
  }

  // ---------------------------------------------------------------------------
  // A component split is determined by the graph

  /** In a component split, a walk from a pane of components 0 .. k ends in one
      of them. */
  lemma {:induction false} WalkStaysAtOrBefore(nears: Nears, path: seq<LineIndex>, c: seq<seq<PaneIndex>>,
                                               k: nat, w: seq<nat>)
    requires ComponentSplit(nears, path, c) && IsWalk(nears, path, w) && InSomeBefore(c, w[0], k + 1)
    ensures InSomeBefore(c, w[|w| - 1], k + 1)
    decreases |w|
  {
    if |w| > 1 {
      var v := w[..|w| - 1];
      assert IsWalk(nears, path, v) by {
        forall i | 0 <= i < |v| - 1 ensures Linked(nears, path, v[i], v[i + 1]) {
          assert v[i] == w[i] && v[i + 1] == w[i + 1];
        }
      }
      WalkStaysAtOrBefore(nears, path, c, k, v);
      var a, b := w[|w| - 2], w[|w| - 1];
      assert Linked(nears, path, a, b);
      var ka, ia :| 0 <= ka < k + 1 && ka < |c| && 0 <= ia < |c[ka]| && c[ka][ia] == a;
      var kb, ib := SplitLinkEarlier(nears, path, c, ka, ia, b);
    }
  }

  /** Component k holds exactly the panes reachable from its first pane that no
      earlier component holds. */
  lemma ComponentIsReachRest(nears: Nears, path: seq<LineIndex>, c: seq<seq<PaneIndex>>, k: nat, b: nat)
    requires ComponentSplit(nears, path, c) && k < |c|
    ensures b in c[k] <==> Reachable(nears, path, c[k][0], b) && !InSomeBefore(c, b, k)
  {
    if b in c[k] {
      var i :| 0 <= i < |c[k]| && c[k][i] == b;
      assert Reachable(nears, path, c[k][0], c[k][i]);
      assert !InSomeBefore(c, b, k);
    }
    if Reachable(nears, path, c[k][0], b) && !InSomeBefore(c, b, k) {
      var w :| IsWalk(nears, path, w) && w[0] == c[k][0] && w[|w| - 1] == b;
      assert InSomeBefore(c, w[0], k + 1) by {
        assert c[k][0] == w[0];
      }
      WalkStaysAtOrBefore(nears, path, c, k, w);
      var k', i' :| 0 <= k' < k + 1 && k' < |c| && 0 <= i' < |c[k']| && c[k'][i'] == b;
      assert k' == k;
    }
  }

  /** Components 0 .. k - 1 of c1 and c2 have the same members. */
  ghost predicate SameUpTo(c1: seq<seq<PaneIndex>>, c2: seq<seq<PaneIndex>>, k: nat) {
    k <= |c1| && k <= |c2| && forall j, b :: 0 <= j < k ==> (b in c1[j] <==> b in c2[j])
  }

  lemma SameBefore(c1: seq<seq<PaneIndex>>, c2: seq<seq<PaneIndex>>, k: nat)
    requires SameUpTo(c1, c2, k)
    ensures forall b :: InSomeBefore(c1, b, k) <==> InSomeBefore(c2, b, k)
  {
    forall b | InSomeBefore(c1, b, k) ensures InSomeBefore(c2, b, k) {
      var j, i :| 0 <= j < k && j < |c1| && 0 <= i < |c1[j]| && c1[j][i] == b;
      assert b in c1[j];
      var i' :| 0 <= i' < |c2[j]| && c2[j][i'] == b;
    }
    forall b | InSomeBefore(c2, b, k) ensures InSomeBefore(c1, b, k) {
      var j, i :| 0 <= j < k && j < |c2| && 0 <= i < |c2[j]| && c2[j][i] == b;
      assert b in c2[j];
      var i' :| 0 <= i' < |c1[j]| && c1[j][i'] == b;
    }
  }

  /** The first pane of each component is in no earlier component. */
  lemma SeedsNew(nears: Nears, path: seq<LineIndex>, c: seq<seq<PaneIndex>>)
    requires ComponentSplit(nears, path, c)
    ensures forall k :: 0 <= k < |c| ==> !InSomeBefore(c, c[k][0], k)
  {
    forall k | 0 <= k < |c| ensures !InSomeBefore(c, c[k][0], k) {
      ComponentIsReachRest(nears, path, c, k, c[k][0]);
    }
  }

  /** Two splits that agree on their first k components start component k with
      the same pane. */
  lemma SameSeed(nears: Nears, path: seq<LineIndex>, c1: seq<seq<PaneIndex>>, c2: seq<seq<PaneIndex>>, k: nat)
    requires ComponentSplit(nears, path, c1) && ComponentSplit(nears, path, c2)
    requires SameUpTo(c1, c2, k) && k < |c1| && k < |c2|
    ensures c1[k][0] == c2[k][0]
  {
    var s1, s2 := c1[k][0], c2[k][0];
    SeedsNew(nears, path, c1);
    SeedsNew(nears, path, c2);
    SameBefore(c1, c2, k);
    assert s1 < s2 ==> InSomeBefore(c2, s1, k);
    assert s2 < s1 ==> InSomeBefore(c1, s2, k);
  }

  /** Two splits that agree on their first k components agree on component k. */
  lemma SameNext(nears: Nears, path: seq<LineIndex>, c1: seq<seq<PaneIndex>>, c2: seq<seq<PaneIndex>>, k: nat)
    requires ComponentSplit(nears, path, c1) && ComponentSplit(nears, path, c2)
    requires SameUpTo(c1, c2, k) && k < |c1| && k < |c2|
    ensures SameUpTo(c1, c2, k + 1)
  {
    SameSeed(nears, path, c1, c2, k);
    SameBefore(c1, c2, k);
    forall j, b | 0 <= j < k + 1 ensures b in c1[j] <==> b in c2[j] {
      if j == k {
        ComponentIsReachRest(nears, path, c1, k, b);
        ComponentIsReachRest(nears, path, c2, k, b);
      }
    }
  }

  /** Where c2 has a component m beyond the m components it shares with c1,
      that component's first pane is in none of c1's first m components. */
  lemma SeedOutside(nears: Nears, path: seq<LineIndex>, c1: seq<seq<PaneIndex>>, c2: seq<seq<PaneIndex>>, m: nat)
    requires ComponentSplit(nears, path, c1) && ComponentSplit(nears, path, c2) && SameUpTo(c1, c2, m)
    ensures m < |c2| ==> c2[m][0] < |nears| && !InSomeBefore(c1, c2[m][0], m)
  {
    SeedsNew(nears, path, c2);
    SameBefore(c1, c2, m);
  }

  /** A split that agrees with another on all its components has no fewer. */
  lemma NoFewer(nears: Nears, path: seq<LineIndex>, c1: seq<seq<PaneIndex>>, c2: seq<seq<PaneIndex>>)
    requires ComponentSplit(nears, path, c1) && ComponentSplit(nears, path, c2)
    requires SameUpTo(c1, c2, |c1|)
    ensures |c1| == |c2|
  {
    SeedOutside(nears, path, c1, c2, |c1|);
  }

  /** The component split of a graph is unique up to the order of panes within
      a component: any two have as many components, with the same members. */
  lemma {:induction false} SplitsAgree(nears: Nears, path: seq<LineIndex>, c1: seq<seq<PaneIndex>>,
                                       c2: seq<seq<PaneIndex>>, k: nat)
    requires ComponentSplit(nears, path, c1) && ComponentSplit(nears, path, c2)
    requires k <= |c1| && k <= |c2|
    ensures SameUpTo(c1, c2, k)
    decreases k
  {
    if k > 0 {
      SplitsAgree(nears, path, c1, c2, k - 1);
      SameNext(nears, path, c1, c2, k - 1);
    }
  }

  lemma SplitUnique(nears: Nears, path: seq<LineIndex>, c1: seq<seq<PaneIndex>>, c2: seq<seq<PaneIndex>>)
    requires ComponentSplit(nears, path, c1) && ComponentSplit(nears, path, c2)
    ensures |c1| == |c2| && SameUpTo(c1, c2, |c1|)
  {
    var m := if |c1| <= |c2| then |c1| else |c2|;
    SplitsAgree(nears, path, c1, c2, m);
    if |c1| <= |c2| {
      NoFewer(nears, path, c1, c2);
    } else {
      assert SameUpTo(c2, c1, |c2|);
      NoFewer(nears, path, c2, c1);
    }
  }

  /** Whether a component mixes colours depends only on its members. */
  lemma MixedSameMembers(a: seq<PaneIndex>, b: seq<PaneIndex>, pc: map<PaneIndex, PaneComplexity>)
    requires forall x :: x in a <==> x in b
    ensures Mixed(a, pc) ==> Mixed(b, pc)
  {
    if Mixed(a, pc) {
      var i, j :| 0 <= i < |a| && 0 <= j < |a| && a[i] in pc && a[j] in pc && pc[a[i]].color != pc[a[j]].color;
      assert a[i] in b && a[j] in b;
      var i' :| 0 <= i' < |b| && b[i'] == a[i];
      var j' :| 0 <= j' < |b| && b[j'] == a[j];
    }
  }

  /** Splits with the same members per component are uniform together. */
  lemma RegionsAgree(c1: seq<seq<PaneIndex>>, c2: seq<seq<PaneIndex>>, pc: map<PaneIndex, PaneComplexity>)
    requires |c1| == |c2| && SameUpTo(c1, c2, |c1|)
    ensures RegionsUniform(c1, pc) <==> RegionsUniform(c2, pc)
  {
    forall k | 0 <= k < |c1| ensures Mixed(c1[k], pc) <==> Mixed(c2[k], pc) {
      MixedSameMembers(c1[k], c2[k], pc);
      MixedSameMembers(c2[k], c1[k], pc);
    }
  }

  /** The verdict is a function of the trace: two judgements of the same trace
      agree on whether it is correct, incomplete or wrong in its regions; only
      which failing dot or line is reported is left open, as the source walks a
      hash map to find it. */
  lemma JudgedAgree(puzzle: Puzzle, dotPath: seq<DotIndex>, linePath: seq<LineIndex>, nowAtDot: bool,
                    c1: seq<seq<PaneIndex>>, r1: Outcome, c2: seq<seq<PaneIndex>>, r2: Outcome)
    requires nowAtDot ==> dotPath != []
    requires Judged(puzzle, dotPath, linePath, nowAtDot, c1, r1)
    requires Judged(puzzle, dotPath, linePath, nowAtDot, c2, r2)
    ensures r1 == Ok <==> r2 == Ok
    ensures r1 == Err(Incomplete) <==> r2 == Err(Incomplete)
    ensures r1 == Err(PaneError) <==> r2 == Err(PaneError)
    ensures r1.Err? && r1.error.DotError? <==> r2.Err? && r2.error.DotError?
    ensures r1.Err? && r1.error.LineError? <==> r2.Err? && r2.error.LineError?
  {
    if nowAtDot {
      SplitUnique(puzzle.paneNears, linePath, c1, c2);
      RegionsAgree(c1, c2, puzzle.paneComplexity);
    }
  }

  // ---------------------------------------------------------------------------
  // The default puzzle

  /** 0, 1, ..., n - 1. */
  function Iota(n: nat): (r: seq<nat>)
    ensures |r| == n && forall i :: 0 <= i < n ==> r[i] == i
  {
    seq(n, i requires 0 <= i < n => i)
  }

  /** The panes listed in s. */
  ghost function Elements(s: seq<nat>): set<nat> {
    set x | x in s
  }

  lemma {:induction false} DistinctCard(s: seq<nat>)
    requires forall i, j :: 0 <= i < j < |s| ==> s[i] != s[j]
    ensures |Elements(s)| == |s|
    decreases |s|
  {
    if s != [] {
      var t, last := s[..|s| - 1], s[|s| - 1];
      DistinctCard(t);
      assert Elements(s) == Elements(t) + {last} by {
        assert s == t + [last];
      }
      assert last !in Elements(t);
    }
  }

  /** A duplicate-free sequence whose elements are exactly 0 .. n - 1 has length n. */
  lemma DistinctCovering(s: seq<nat>, n: nat)
    requires forall i, j :: 0 <= i < j < |s| ==> s[i] != s[j]
    requires forall i :: 0 <= i < |s| ==> s[i] < n
    requires forall p :: 0 <= p < n ==> p in s
    ensures |s| == n
  {
    DistinctCard(s);
    DistinctCard(Iota(n));
    forall x: nat ensures x in s <==> x in Iota(n) {
      if x < n {
        assert Iota(n)[x] == x;
      }
    }
    assert Elements(s) == Elements(Iota(n));
  }

  /** With no line cut, every default pane is reachable from pane 0. */
  lemma {:induction false} DefaultAllReachable(p: nat)
    requires p < 16
    ensures Reachable(DefaultPaneNears(), [], 0, p)
    decreases p
  {
    var nears := DefaultPaneNears();
    if p == 0 {
      assert IsWalk(nears, [], [0]);
    } else {
      var x, y := p % 4, p / 4;
      DivModGrid(y, x, 4);
      var q, qx, qy := if x > 0 then p - 1 else p - 4, if x > 0 then x - 1 else x, if x > 0 then y else y - 1;
      DefaultAllReachable(q);
      DefaultListAt(qx, qy);
      assert q == PaneAt(qx, qy) && p == PaneAt(x, y);
      var j := AsWrittenFind(qx, qy, p);
      assert nears[q][j].1 == p;
      assert Linked(nears, [], q, p);
      assert IsWalk(nears, [], [q, p]);
      ReachableTransitive(nears, [], 0, q, p);
    }
  }

  /** A component split in which component k0 holds every pane has no other
      component. */
  lemma OnlyComponent(nears: Nears, c: seq<seq<PaneIndex>>, k0: nat, k: nat)
    requires ComponentSplit(nears, [], c) && k0 < |c| && k < |c|
    requires forall p :: 0 <= p < |nears| ==> p in c[k0]
    ensures k == k0
  {
    var q := c[k][0];
    assert q < |nears| && q in c[k0];
    var i :| 0 <= i < |c[k0]| && c[k0][i] == q;
  }

  /** On the default puzzle with an empty path there is exactly one component,
      and it holds all 16 panes. */
  lemma DefaultEmptyPathOneComponent(c: seq<seq<PaneIndex>>)
    requires ComponentSplit(DefaultPaneNears(), [], c)
    ensures |c| == 1 && |c[0]| == 16
    ensures forall p :: 0 <= p < 16 ==> p in c[0]
  {
    var nears := DefaultPaneNears();
    DefaultNearsInRange();
    DefaultNearsSymmetric();
    EmptyPathSymmetricLinks(nears);
    assert InSomeBefore(c, 0, |c|);
    var k0, i0 :| 0 <= k0 < |c| && 0 <= i0 < |c[k0]| && c[k0][i0] == 0;
    forall p | 0 <= p < 16 ensures p in c[k0] {
      DefaultAllReachable(p);
      ComponentIsReachableClass(nears, [], c, k0, 0, p);
    }
    OnlyComponent(nears, c, k0, 0);
    OnlyComponent(nears, c, k0, |c| - 1);
    DistinctCovering(c[0], 16);
  }

  /** `test_find_components`: on the default puzzle with an empty path the flood
      fill finds a single component of all 16 panes. */
  method DefaultEmptyPathComponents() returns (components: seq<seq<PaneIndex>>)
    ensures |components| == 1 && |components[0]| == DefaultPuzzleSpec().paneCount
  {
    DefaultNearsInRange();
    components := FindComponents(DefaultPaneNears(), []);
    DefaultEmptyPathOneComponent(components);
  }

  // ---------------------------------------------------------------------------
  // Cutting the pane graph along a wall

  /** The four vertical lines on dot column 1: a path along them separates pane
      column 0 from the other panes. */
  function ColumnWall(): seq<LineIndex> {
    seq(4, y requires 0 <= y < 4 => VLine(1, y))
  }

  /** As written, panes (0, 0) and (1, 0) stay adjacent both ways when the wall
      is on the path. */
  lemma AsWrittenWallLinks()
    ensures Linked(DefaultPaneNears(), ColumnWall(), 0, 1) && Linked(DefaultPaneNears(), ColumnWall(), 1, 0)
  {
    var nears := DefaultPaneNears();
    assert Linked(nears, ColumnWall(), 0, 1) by {
      assert nears[0] == AsWrittenNears(0, 0);
      assert nears[0][0] == (HLine(0, 0), 1);
      assert HLine(0, 0) !in ColumnWall();
    }
    assert Linked(nears, ColumnWall(), 1, 0) by {
      assert nears[1] == AsWrittenNears(1, 0);
      assert nears[1][0] == (HLine(1, 0), 0);
      assert HLine(1, 0) !in ColumnWall();
    }
  }

  /** As written, the wall does not cut panes (0, 0) and (1, 0) apart: both
      adjacencies between them are recorded with lines off the wall, so every
      component split puts them together. */
  lemma AsWrittenWallLeaks(c: seq<seq<PaneIndex>>)
    requires ComponentSplit(DefaultPaneNears(), ColumnWall(), c)
    ensures exists k :: 0 <= k < |c| && PaneAt(0, 0) in c[k] && PaneAt(1, 0) in c[k]
  {
    var nears := DefaultPaneNears();
    AsWrittenWallLinks();
    assert InSomeBefore(c, 0, |c|);
    var k, i :| 0 <= k < |c| && 0 <= i < |c[k]| && c[k][i] == 0;
    MutuallyLinkedSameComponent(nears, ColumnWall(), c, k, 0, 1);
  }

  /** With separating labels, pane (x, y) keeps an adjacency exactly when the
      line the two panes share is off the path. */
  lemma SeparatingLinkIff(path: seq<LineIndex>, x: nat, y: nat, q: nat)
    requires x < 4 && y < 4
    ensures Linked(SeparatingPaneNears(), path, PaneAt(x, y), q) <==>
      ((x > 0 && q == PaneAt(x - 1, y) && VLine(x, y) !in path) ||
       (y > 0 && q == PaneAt(x, y - 1) && HLine(x, y) !in path) ||
       (x + 1 < 4 && q == PaneAt(x + 1, y) && VLine(x + 1, y) !in path) ||
       (y + 1 < 4 && q == PaneAt(x, y + 1) && HLine(x, y + 1) !in path))
  {
    if Linked(SeparatingPaneNears(), path, PaneAt(x, y), q) {
      SeparatingLinkedListed(path, x, y, q);
    }
    var l := if x > 0 && q == PaneAt(x - 1, y) then VLine(x, y)
      else if y > 0 && q == PaneAt(x, y - 1) then HLine(x, y)
      else if x + 1 < 4 && q == PaneAt(x + 1, y) then VLine(x + 1, y)
      else HLine(x, y + 1);
    if ((x > 0 && q == PaneAt(x - 1, y)) || (y > 0 && q == PaneAt(x, y - 1)) ||
        (x + 1 < 4 && q == PaneAt(x + 1, y)) || (y + 1 < 4 && q == PaneAt(x, y + 1))) && l !in path
    {
      SeparatingEntries(x, y, l, q);
      SeparatingListedLinked(path, x, y, l, q);
    }
  }

  /** An uncut separating adjacency of pane (x, y) is one of its listed entries. */
  lemma SeparatingLinkedListed(path: seq<LineIndex>, x: nat, y: nat, q: nat)
    requires x < 4 && y < 4 && Linked(SeparatingPaneNears(), path, PaneAt(x, y), q)
    ensures (x > 0 && q == PaneAt(x - 1, y) && VLine(x, y) !in path) ||
       (y > 0 && q == PaneAt(x, y - 1) && HLine(x, y) !in path) ||
       (x + 1 < 4 && q == PaneAt(x + 1, y) && VLine(x + 1, y) !in path) ||
       (y + 1 < 4 && q == PaneAt(x, y + 1) && HLine(x, y + 1) !in path)
  {
    SeparatingListAt(x, y);
    var s := SeparatingNears(x, y);
    var j :| 0 <= j < |s| && s[j].1 == q && s[j].0 !in path;
    assert (s[j].0, q) in s by {
      assert s[j] == (s[j].0, q);
    }
    SeparatingEntries(x, y, s[j].0, q);
  }

  /** A listed entry of pane (x, y) whose line is off the path is an uncut
      adjacency. */
  lemma SeparatingListedLinked(path: seq<LineIndex>, x: nat, y: nat, l: LineIndex, q: nat)
    requires x < 4 && y < 4 && (l, q) in SeparatingNears(x, y) && l !in path
    ensures Linked(SeparatingPaneNears(), path, PaneAt(x, y), q)
  {
    SeparatingListAt(x, y);
    var s := SeparatingNears(x, y);
    var j :| 0 <= j < |s| && s[j] == (l, q);
    assert s[j].1 == q && s[j].0 !in path;
  }

  /** With separating labels, pane (0, y) is adjacent only to the panes above
      and below it and, across line VLine(1, y), to pane (1, y). */
  lemma ColumnZeroLinks(path: seq<LineIndex>, y: nat, q: nat)
    requires y < 4 && Linked(SeparatingPaneNears(), path, PaneAt(0, y), q)
    ensures (y > 0 && q == PaneAt(0, y - 1)) || (y + 1 < 4 && q == PaneAt(0, y + 1)) ||
      (q == PaneAt(1, y) && VLine(1, y) !in path)
  {
    SeparatingLinkIff(path, 0, y, q);
  }

  /** The path holds the four vertical lines on dot column 1. */
  ghost predicate CutsColumn(path: seq<LineIndex>) {
    forall y :: 0 <= y < 4 ==> VLine(1, y) in path
  }

  lemma ColumnWallCuts()
    ensures CutsColumn(ColumnWall())
  {
    forall y | 0 <= y < 4 ensures VLine(1, y) in ColumnWall() {
      assert ColumnWall()[y] == VLine(1, y);
    }
  }

  /** Behind the wall, separating labels only lead up and down pane column 0. */
  lemma BehindWallStep(path: seq<LineIndex>, a: nat, b: nat)
    requires CutsColumn(path)
    requires a < 16 && a % 4 == 0 && Linked(SeparatingPaneNears(), path, a, b)
    ensures b < 16 && b % 4 == 0
  {
    var y := a / 4;
    DivModGrid(y, 0, 4);
    assert a == PaneAt(0, y);
    assert VLine(1, y) in path;
    ColumnZeroLinks(path, y, b);
    if y > 0 && b == PaneAt(0, y - 1) {
      DivModGrid(y - 1, 0, 4);
    } else {
      assert y + 1 < 4 && b == PaneAt(0, y + 1);
      DivModGrid(y + 1, 0, 4);
    }
  }

  /** With separating labels, a walk that starts in pane column 0 stays there
      when the wall is on the path. */
  lemma {:induction false} WalkStaysBehindWall(path: seq<LineIndex>, w: seq<nat>)
    requires CutsColumn(path)
    requires IsWalk(SeparatingPaneNears(), path, w) && w[0] < 16 && w[0] % 4 == 0
    ensures w[|w| - 1] < 16 && w[|w| - 1] % 4 == 0
    decreases |w|
  {
    if |w| > 1 {
      var v := w[..|w| - 1];
      assert IsWalk(SeparatingPaneNears(), path, v) by {
        forall i | 0 <= i < |v| - 1 ensures Linked(SeparatingPaneNears(), path, v[i], v[i + 1]) {
          assert v[i] == w[i] && v[i + 1] == w[i + 1];
        }
      }
      WalkStaysBehindWall(path, v);
      assert Linked(SeparatingPaneNears(), path, w[|w| - 2], w[|w| - 1]);
      BehindWallStep(path, w[|w| - 2], w[|w| - 1]);
    }
  }

  lemma WallUnreachable(path: seq<LineIndex>)
    requires CutsColumn(path)
    ensures !Reachable(SeparatingPaneNears(), path, PaneAt(0, 0), PaneAt(1, 0))
  {
    if Reachable(SeparatingPaneNears(), path, 0, 1) {
      var w :| IsWalk(SeparatingPaneNears(), path, w) && w[0] == 0 && w[|w| - 1] == 1;
      WalkStaysBehindWall(path, w);
    }
  }

  /** With separating labels, any path along the wall does cut panes (0, 0)
      and (1, 0) apart. */
  lemma SeparatingWallSeparates(path: seq<LineIndex>, c: seq<seq<PaneIndex>>, k: nat)
    requires CutsColumn(path)
    requires ComponentSplit(SeparatingPaneNears(), path, c) && k < |c|
    ensures !(PaneAt(0, 0) in c[k] && PaneAt(1, 0) in c[k])
  {
    if PaneAt(0, 0) in c[k] {
      SeparatingLabelsSymmetric();
      LabelsGiveSymmetricLinks(SeparatingPaneNears(), path);
      ComponentIsReachableClass(SeparatingPaneNears(), path, c, k, 0, 1);
      WallUnreachable(path);
    }
  }

  // ---------------------------------------------------------------------------
  // A trace along the wall

  /** The lines of the trace through dots 0, 5, 6, 7, 8, 9, 14, 19, 24 and the
      end dot 25: from the start dot along the bottom edge to dot column 1, up
      that column, along the top edge and out to the end dot. */
  function WallTrace(): seq<LineIndex> {
    [HLine(0, 0), VLine(1, 0), VLine(1, 1), VLine(1, 2), VLine(1, 3),
     HLine(1, 4), HLine(2, 4), HLine(3, 4), END_LINE]
  }

  lemma WallTraceCuts()
    ensures CutsColumn(WallTrace())
  {
    assert WallTrace()[1] == VLine(1, 0) && WallTrace()[2] == VLine(1, 1);
    assert WallTrace()[3] == VLine(1, 2) && WallTrace()[4] == VLine(1, 3);
  }

  /** In any component split, the first component starts with pane 0. */
  lemma FirstSeedIsZero(nears: Nears, path: seq<LineIndex>, c: seq<seq<PaneIndex>>)
    requires ComponentSplit(nears, path, c) && |nears| > 0
    ensures |c| > 0 && c[0][0] == 0
  {
    assert InSomeBefore(c, 0, |c|);
    assert !InSomeBefore(c, 0, 0);
  }

  /** The dots at either end of the lines of the trace along the wall. */
  lemma WallTraceEnds(l: LineIndex)
    ensures l in WallTrace() ==>
      l.first in {0, 5, 6, 7, 8, 9, 14, 19, 25} && l.second in {5, 6, 7, 8, 9, 14, 19, 24}
  {
  }

  /** A default adjacency recorded with a line off the path is uncut. */
  lemma AsWrittenLinkOff(path: seq<LineIndex>, x: nat, y: nat, j: nat)
    requires x < 4 && y < 4 && j < |AsWrittenNears(x, y)| && AsWrittenNears(x, y)[j].0 !in path
    ensures Linked(DefaultPaneNears(), path, PaneAt(x, y), AsWrittenNears(x, y)[j].1)
  {
    DefaultListAt(x, y);
  }

  /** As written, the default adjacencies 0 -> 4 -> 5 -> 6 -> 2 -> 1 are
      recorded with lines off the trace, one lemma each. */
  lemma TraceKeeps0To4()
    ensures Linked(DefaultPaneNears(), WallTrace(), 0, 4)
  {
    WallTraceEnds(VLine(0, 0));
    assert AsWrittenNears(0, 0)[1] == (VLine(0, 0), 4);
    AsWrittenLinkOff(WallTrace(), 0, 0, 1);
  }

  lemma TraceKeeps4To5()
    ensures Linked(DefaultPaneNears(), WallTrace(), 4, 5)
  {
    WallTraceEnds(HLine(0, 1));
    assert AsWrittenNears(0, 1)[1] == (HLine(0, 1), 5);
    AsWrittenLinkOff(WallTrace(), 0, 1, 1);
  }

  lemma TraceKeeps5To6()
    ensures Linked(DefaultPaneNears(), WallTrace(), 5, 6)
  {
    WallTraceEnds(HLine(1, 1));
    assert AsWrittenNears(1, 1)[2] == (HLine(1, 1), 6);
    AsWrittenLinkOff(WallTrace(), 1, 1, 2);
  }

  lemma TraceKeeps6To2()
    ensures Linked(DefaultPaneNears(), WallTrace(), 6, 2)
  {
    WallTraceEnds(VLine(2, 1));
    assert AsWrittenNears(2, 1)[1] == (VLine(2, 1), 2);
    AsWrittenLinkOff(WallTrace(), 2, 1, 1);
  }

  lemma TraceKeeps2To1()
    ensures Linked(DefaultPaneNears(), WallTrace(), 2, 1)
  {
    WallTraceEnds(HLine(2, 0));
    assert AsWrittenNears(2, 0)[0] == (HLine(2, 0), 1);
    AsWrittenLinkOff(WallTrace(), 2, 0, 0);
  }

  /** As written, pane (1, 0) is reachable from pane (0, 0) with the trace on
      the path, through panes 4, 5, 6 and 2. */
  lemma AsWrittenTraceReach()
    ensures Reachable(DefaultPaneNears(), WallTrace(), PaneAt(0, 0), PaneAt(1, 0))
  {
    TraceReaches0To5();
    TraceReaches5To1();
    ReachableTransitive(DefaultPaneNears(), WallTrace(), 0, 5, 1);
  }

  lemma TraceReaches0To5()
    ensures Reachable(DefaultPaneNears(), WallTrace(), 0, 5)
  {
    TraceKeeps0To4();
    TraceKeeps4To5();
    TwoLinksReach(DefaultPaneNears(), WallTrace(), 0, 4, 5);
  }

  lemma TraceReaches5To1()
    ensures Reachable(DefaultPaneNears(), WallTrace(), 5, 1)
  {
    TraceReaches5To2();
    TraceKeeps2To1();
    LinkReaches(DefaultPaneNears(), WallTrace(), 2, 1);
    ReachableTransitive(DefaultPaneNears(), WallTrace(), 5, 2, 1);
  }

  lemma TraceReaches5To2()
    ensures Reachable(DefaultPaneNears(), WallTrace(), 5, 2)
  {
    TraceKeeps5To6();
    TraceKeeps6To2();
    TwoLinksReach(DefaultPaneNears(), WallTrace(), 5, 6, 2);
  }

  /** An uncut adjacency is a walk of two panes. */
  lemma LinkReaches(nears: Nears, path: seq<LineIndex>, a: nat, b: nat)
    requires Linked(nears, path, a, b)
    ensures Reachable(nears, path, a, b)
  {
    assert IsWalk(nears, path, [a, b]);
  }

  /** Two uncut adjacencies in a row are a walk of three panes. */
  lemma TwoLinksReach(nears: Nears, path: seq<LineIndex>, a: nat, b: nat, d: nat)
    requires Linked(nears, path, a, b) && Linked(nears, path, b, d)
    ensures Reachable(nears, path, a, d)
  {
    var w := [a, b, d];
    forall i | 0 <= i < |w| - 1 ensures Linked(nears, path, w[i], w[i + 1]) {
      if i == 0 {} else { assert i == 1; }
    }
    assert IsWalk(nears, path, w) && w[0] == a && w[|w| - 1] == d;
  }

  /** As written, the trace along the wall does not separate pane (1, 0) from
      pane (0, 0): every component split of the default puzzle puts both in
      the first component. */
  lemma AsWrittenTraceLeaks(c: seq<seq<PaneIndex>>)
    requires ComponentSplit(DefaultPaneNears(), WallTrace(), c)
    ensures |c| > 0 && PaneAt(0, 0) in c[0] && PaneAt(1, 0) in c[0]
  {
    var nears, path := DefaultPaneNears(), WallTrace();
    FirstSeedIsZero(nears, path, c);
    AsWrittenTraceReach();
    assert !InSomeBefore(c, 1, 0);
    ComponentIsReachRest(nears, path, c, 0, 1);
    assert c[0][0] == 0;
  }

  /** With separating labels, the same trace does separate them. */
  lemma SeparatingTraceSeparates(c: seq<seq<PaneIndex>>, k: nat)
    requires ComponentSplit(SeparatingPaneNears(), WallTrace(), c) && k < |c|
    ensures !(PaneAt(0, 0) in c[k] && PaneAt(1, 0) in c[k])
  {
    WallTraceCuts();
    SeparatingWallSeparates(WallTrace(), c, k);
  }
}
