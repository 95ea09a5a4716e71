/**
 * Tree-grid visibility and scenic score (day8.py).
 *
 * The forest is a rectangular grid of trees, each with a height, a
 * visibility flag (unset, visible, hidden) and an optional scenic score; the
 * passes of `calculate_visibility` and `calculate_all_scenic_scores` update
 * those cells in place, so the grid is an `array2`.  What the passes compute
 * is specified over a snapshot `h` of the heights, which no pass changes.
 */
module Forest {
  import opened Common

  /** One grid cell: the dictionary {"height", "visible", "scenic_score"}. */
  datatype Tree = Tree(height: int, visible: Option<bool>, scenic: Option<int>)

  /** The four viewing directions `find_tree_distance` accepts. */
  datatype Direction = Left | Right | Up | Down

  /** `direction_lookup`: the (x, y) offset of one step in direction `d`. */
  function Step(d: Direction): (r: (int, int))
    ensures (r.0 == 0) != (r.1 == 0)
    ensures -1 <= r.0 <= 1 && -1 <= r.1 <= 1
  {
    match d
    case Left => (-1, 0)
    case Right => (1, 0)
    case Up => (0, -1)
    case Down => (0, 1)
  }

  predicate InGrid(h: seq<seq<int>>, y: int, x: int)
  {
    0 <= y < |h| && 0 <= x < |h[y]|
  }

  /** Every row of `h` has width `w`. */
  predicate Rect(h: seq<seq<int>>, w: int)
  {
    forall i | 0 <= i < |h| :: |h[i]| == w
  }

  /** `h` is the height snapshot of grid `g`. */
  ghost predicate HeightsAre(g: array2<Tree>, h: seq<seq<int>>)
    reads g
  {
    |h| == g.Length0 && Rect(h, g.Length1) &&
    forall i, j | 0 <= i < g.Length0 && 0 <= j < g.Length1 :: g[i, j].height == h[i][j]
  }

  /** How many steps in direction `d` fit between (y, x) and the edge. */
  function Room(h: seq<seq<int>>, y: int, x: int, d: Direction): int
  {
    match d
    case Left => x
    case Right => (if 0 <= y < |h| then |h[y]| else 0) - x
    case Up => y
    case Down => |h| - y
  }

  /**
   * The heights of the trees between (y, x) and the edge of the grid in
   * direction `d`, nearest first.
   */
  function Sight(h: seq<seq<int>>, y: int, x: int, d: Direction): seq<int>
    decreases Room(h, y, x, d)
  {
    var ny := y + Step(d).1;
    var nx := x + Step(d).0;
    if InGrid(h, ny, nx) then [h[ny][nx]] + Sight(h, ny, nx, d) else []
  }

  /** Every height in `s` is below `v`. */
  predicate AllBelow(s: seq<int>, v: int)
  {
    s == [] || (s[0] < v && AllBelow(s[1..], v))
  }

  /**
   * A tree is visible when, in at least one of the four directions, every
   * tree between it and the edge is strictly shorter.
   */
  ghost predicate Visible(h: seq<seq<int>>, y: int, x: int)
    requires InGrid(h, y, x)
  {
    ClearLeft(h, y, x) || ClearRight(h, y, x) || ClearUp(h, y, x) || ClearDown(h, y, x)
  }

  /**
   * Viewing distance of a tree of height `v` along `s`: the trees up to and
   * including the first one at least as tall, or all of them.
   */
  function Distance(v: int, s: seq<int>): (r: nat)
    ensures r <= |s| && (s != [] ==> 1 <= r)
    ensures forall i | 0 <= i < r - 1 :: s[i] < v
    ensures r == |s| || s[r - 1] >= v
  {
    if s == [] then 0 else if s[0] >= v then 1 else 1 + Distance(v, s[1..])
  }

  predicate OnEdge(h: seq<seq<int>>, y: int, x: int)
    requires 0 <= y < |h|
  {
    x == 0 || x == |h[y]| - 1 || y == 0 || y == |h| - 1
  }

  /** The scenic score: 0 on the edge, else the product of the four distances. */
  function Score(h: seq<seq<int>>, y: int, x: int): int
    requires InGrid(h, y, x)
  {
    if OnEdge(h, y, x) then 0
    else
      var v := h[y][x];
      Product(Distance(v, Sight(h, y, x, Up)), Distance(v, Sight(h, y, x, Down)),
              Distance(v, Sight(h, y, x, Left)), Distance(v, Sight(h, y, x, Right)))
  }

  /** `top * bottom * left * right`. */
  function Product(top: int, bottom: int, left: int, right: int): int
  {
    top * bottom * left * right
  }

  // Closed forms of the four clear views, used by the passes.

  ghost predicate ClearLeft(h: seq<seq<int>>, y: int, x: int)
    requires InGrid(h, y, x)
  {
    forall k | 0 <= k < x :: h[y][k] < h[y][x]
  }

  ghost predicate ClearRight(h: seq<seq<int>>, y: int, x: int)
    requires InGrid(h, y, x)
  {
    forall k | x < k < |h[y]| :: h[y][k] < h[y][x]
  }

  ghost predicate ClearUp(h: seq<seq<int>>, y: int, x: int)
    requires InGrid(h, y, x)
  {
    forall i | 0 <= i < y && x < |h[i]| :: h[i][x] < h[y][x]
  }

  ghost predicate ClearDown(h: seq<seq<int>>, y: int, x: int)
    requires InGrid(h, y, x)
  {
    forall i | y < i < |h| && x < |h[i]| :: h[i][x] < h[y][x]
  }

  lemma {:induction false} AllBelowIff(s: seq<int>, v: int)
    ensures AllBelow(s, v) <==> forall i | 0 <= i < |s| :: s[i] < v
  {
    if s != [] {
      AllBelowIff(s[1..], v);
      assert forall i | 1 <= i < |s| :: s[i] == s[1..][i - 1];
    }
  }

  /** Looking left sees row y from x - 1 down to 0. */
  lemma {:induction false} SightLeft(h: seq<seq<int>>, y: int, x: int)
    requires 0 <= y < |h| && 0 <= x <= |h[y]|
    ensures |Sight(h, y, x, Left)| == x
    ensures forall i | 0 <= i < x :: Sight(h, y, x, Left)[i] == h[y][x - 1 - i]
    decreases x
  {
    if x > 0 {
      SightLeft(h, y, x - 1);
    }
  }

  /** Looking right sees row y from x + 1 up to the last column. */
  lemma {:induction false} SightRight(h: seq<seq<int>>, y: int, x: int)
    requires 0 <= y < |h| && -1 <= x < |h[y]|
    ensures |Sight(h, y, x, Right)| == |h[y]| - 1 - x
    ensures forall i | 0 <= i < |h[y]| - 1 - x :: Sight(h, y, x, Right)[i] == h[y][x + 1 + i]
    decreases |h[y]| - x
  {
    if x + 1 < |h[y]| {
      SightRight(h, y, x + 1);
    }
  }

  /** Looking up sees column x from row y - 1 down to row 0. */
  lemma {:induction false} SightUp(h: seq<seq<int>>, w: int, y: int, x: int)
    requires Rect(h, w) && 0 <= y <= |h| && 0 <= x < w
    ensures |Sight(h, y, x, Up)| == y
    ensures forall i | 0 <= i < y :: Sight(h, y, x, Up)[i] == h[y - 1 - i][x]
    decreases y
  {
    if y > 0 {
      SightUp(h, w, y - 1, x);
    }
  }

  /** Looking down sees column x from row y + 1 to the last row. */
  lemma {:induction false} SightDown(h: seq<seq<int>>, w: int, y: int, x: int)
    requires Rect(h, w) && -1 <= y < |h| && 0 <= x < w
    ensures |Sight(h, y, x, Down)| == |h| - 1 - y
    ensures forall i | 0 <= i < |h| - 1 - y :: Sight(h, y, x, Down)[i] == h[y + 1 + i][x]
    decreases |h| - y
  {
    if y + 1 < |h| {
      SightDown(h, w, y + 1, x);
    }
  }

  /**
   * Visibility seen as a walk: in some direction the sight line from the
   * tree to the edge holds only shorter trees.
   */
  lemma VisibleBySight(h: seq<seq<int>>, w: int, y: int, x: int)
    requires Rect(h, w) && InGrid(h, y, x)
    ensures var v := h[y][x]; Visible(h, y, x) <==>
      AllBelow(Sight(h, y, x, Left), v) || AllBelow(Sight(h, y, x, Right), v) ||
      AllBelow(Sight(h, y, x, Up), v) || AllBelow(Sight(h, y, x, Down), v)
  {
    var v := h[y][x];
    SightLeft(h, y, x);
    SightRight(h, y, x);
    SightUp(h, w, y, x);
    SightDown(h, w, y, x);
    AllBelowIff(Sight(h, y, x, Left), v);
    AllBelowIff(Sight(h, y, x, Right), v);
    AllBelowIff(Sight(h, y, x, Up), v);
    AllBelowIff(Sight(h, y, x, Down), v);
    assert ClearLeft(h, y, x) <==> AllBelow(Sight(h, y, x, Left), v) by {
      forall k | 0 <= k < x ensures h[y][k] == Sight(h, y, x, Left)[x - 1 - k] { }
    }
    assert ClearRight(h, y, x) <==> AllBelow(Sight(h, y, x, Right), v) by {
      forall k | x < k < |h[y]| ensures h[y][k] == Sight(h, y, x, Right)[k - x - 1] { }
    }
    assert ClearUp(h, y, x) <==> AllBelow(Sight(h, y, x, Up), v) by {
      forall i | 0 <= i < y ensures h[i][x] == Sight(h, y, x, Up)[y - 1 - i] { }
    }
    assert ClearDown(h, y, x) <==> AllBelow(Sight(h, y, x, Down), v) by {
      forall i | y < i < |h| ensures h[i][x] == Sight(h, y, x, Down)[i - y - 1] { }
    }
  }

  /** Every tree on the edge of the grid is visible. */
  lemma EdgeVisible(h: seq<seq<int>>, w: int, y: int, x: int)
    requires Rect(h, w) && InGrid(h, y, x) && OnEdge(h, y, x)
    ensures Visible(h, y, x)
  {
  }

  /** Away from the edge every viewing distance is at least 1, so the score is. */
  lemma {:induction false} ScorePositive(h: seq<seq<int>>, w: int, y: int, x: int)
    requires Rect(h, w) && InGrid(h, y, x) && !OnEdge(h, y, x)
    ensures Score(h, y, x) >= 1
  {
    var v := h[y][x];
    SightLeft(h, y, x);
    SightRight(h, y, x);
    SightUp(h, w, y, x);
    SightDown(h, w, y, x);
    var u, d, l, r := Distance(v, Sight(h, y, x, Up)), Distance(v, Sight(h, y, x, Down)),
                      Distance(v, Sight(h, y, x, Left)), Distance(v, Sight(h, y, x, Right));
    ProductMono(1, u, 1, d, 1, l, 1, r);
  }

  /** A tree on the edge of the grid scores 0. */
  lemma ScoreEdge(h: seq<seq<int>>, y: int, x: int)
    requires InGrid(h, y, x) && OnEdge(h, y, x)
    ensures Score(h, y, x) == 0
  {
  }

  /** An interior tree scores at most the product of its distances to the four edges. */
  lemma ScoreAtMost(h: seq<seq<int>>, w: int, y: int, x: int)
    requires Rect(h, w) && InGrid(h, y, x) && !OnEdge(h, y, x)
    ensures Score(h, y, x) <= Product(y, |h| - 1 - y, x, w - 1 - x)
  {
    var v := h[y][x];
    SightLengths(h, w, y, x);
    var u, d, l, r := Distance(v, Sight(h, y, x, Up)), Distance(v, Sight(h, y, x, Down)),
                      Distance(v, Sight(h, y, x, Left)), Distance(v, Sight(h, y, x, Right));
    ProductMono(u, y, d, |h| - 1 - y, l, x, r, w - 1 - x);
  }

  /** The four sight lines of a tree are as long as its distances to the four edges. */
  lemma SightLengths(h: seq<seq<int>>, w: int, y: int, x: int)
    requires Rect(h, w) && InGrid(h, y, x)
    ensures |Sight(h, y, x, Up)| == y && |Sight(h, y, x, Down)| == |h| - 1 - y
    ensures |Sight(h, y, x, Left)| == x && |Sight(h, y, x, Right)| == w - 1 - x
  {
    SightLeft(h, y, x);
    SightRight(h, y, x);
    SightUp(h, w, y, x);
    SightDown(h, w, y, x);
  }

  lemma MulMono(a: int, b: int, c: int, d: int)
    requires 0 <= a <= b && 0 <= c <= d
    ensures a * c <= b * d
  {
    assert a * c <= b * c;
    assert b * c <= b * d;
  }

  lemma ProductMono(a: int, a': int, b: int, b': int, c: int, c': int, d: int, d': int)
    requires 0 <= a <= a' && 0 <= b <= b' && 0 <= c <= c' && 0 <= d <= d'
    ensures Product(a, b, c, d) <= Product(a', b', c', d')
  {
    MulMono(a, a', b, b');
    MulMono(a * b, a' * b', c, c');
    MulMono(a * b * c, a' * b' * c', d, d');
  }

  /** Number of visible trees in row y from column x on. */
  ghost function CountRow(h: seq<seq<int>>, y: int, x: nat): nat
    requires 0 <= y < |h|
    decreases |h[y]| - x
  {
    if x >= |h[y]| then 0
    else (if Visible(h, y, x) then 1 else 0) + CountRow(h, y, x + 1)
  }

  /** Number of visible trees in rows y.. of the grid. */
  ghost function CountVisible(h: seq<seq<int>>, y: nat): nat
    decreases |h| - y
  {
    if y >= |h| then 0 else CountRow(h, y, 0) + CountVisible(h, y + 1)
  }

  /** The example grid of the puzzle. */
  const Example: seq<seq<int>> :=
    [[3, 0, 3, 7, 3],
     [2, 5, 5, 1, 2],
     [6, 5, 3, 3, 2],
     [3, 3, 5, 4, 9],
     [3, 5, 3, 9, 0]]

  /**
   * A tree is hidden exactly when, in each of the four directions, some
   * tree between it and the edge is at least as tall: here, the ones at
   * columns `kl` and `kr` of its row and rows `ku` and `kd` of its column.
   */
  lemma Hidden(h: seq<seq<int>>, w: int, y: int, x: int, kl: int, kr: int, ku: int, kd: int)
    requires Rect(h, w) && InGrid(h, y, x)
    requires 0 <= kl < x && h[y][kl] >= h[y][x]
    requires x < kr < w && h[y][kr] >= h[y][x]
    requires 0 <= ku < y && h[ku][x] >= h[y][x]
    requires y < kd < |h| && h[kd][x] >= h[y][x]
    ensures !Visible(h, y, x)
  {
  }

  /** Every tree of the first and the last row is visible, so all of them count. */
  lemma {:induction false} EdgeRowCount(h: seq<seq<int>>, w: int, y: int, x: nat)
    requires Rect(h, w) && (y == 0 || y == |h| - 1) && 0 <= y < |h| && x <= w
    ensures CountRow(h, y, x) == w - x
    decreases w - x
  {
    if x < w {
      EdgeVisible(h, w, y, x);
      EdgeRowCount(h, w, y, x + 1);
    }
  }

  /** Row 1 of the example, 25512: only the tree of height 1 is hidden. */
  lemma ExampleRow1()
    ensures CountRow(Example, 1, 0) == 4
  {
    var e := Example;
    EdgeVisible(e, 5, 1, 0);
    assert ClearLeft(e, 1, 1) && ClearUp(e, 1, 2);
    Hidden(e, 5, 1, 3, 1, 4, 0, 2);
    EdgeVisible(e, 5, 1, 4);
    assert CountRow(e, 1, 5) == 0;
    assert CountRow(e, 1, 4) == 1;
    assert CountRow(e, 1, 3) == 1;
    assert CountRow(e, 1, 2) == 2;
    assert CountRow(e, 1, 1) == 3;
  }

  /** Row 2 of the example, 65332: only the middle 3 is hidden. */
  lemma ExampleRow2()
    ensures CountRow(Example, 2, 0) == 4
  {
    var e := Example;
    EdgeVisible(e, 5, 2, 0);
    assert ClearRight(e, 2, 1) && ClearRight(e, 2, 3);
    Hidden(e, 5, 2, 2, 1, 3, 1, 3);
    EdgeVisible(e, 5, 2, 4);
    assert CountRow(e, 2, 5) == 0;
    assert CountRow(e, 2, 4) == 1;
    assert CountRow(e, 2, 3) == 2;
    assert CountRow(e, 2, 2) == 2;
    assert CountRow(e, 2, 1) == 3;
  }

  /** Row 3 of the example, 33549: only the 5 is visible inside. */
  lemma ExampleRow3()
    ensures CountRow(Example, 3, 0) == 3
  {
    var e := Example;
    EdgeVisible(e, 5, 3, 0);
    Hidden(e, 5, 3, 1, 0, 2, 1, 4);
    assert ClearLeft(e, 3, 2);
    Hidden(e, 5, 3, 3, 2, 4, 0, 4);
    EdgeVisible(e, 5, 3, 4);
    assert CountRow(e, 3, 5) == 0;
    assert CountRow(e, 3, 4) == 1;
    assert CountRow(e, 3, 3) == 1;
    assert CountRow(e, 3, 2) == 2;
    assert CountRow(e, 3, 1) == 2;
  }

  /** The example grid has 21 visible trees. */
  lemma ExampleVisible()
    ensures CountVisible(Example, 0) == 21
  {
    var e := Example;
    EdgeRowCount(e, 5, 0, 0);
    EdgeRowCount(e, 5, 4, 0);
    ExampleRow1();
    ExampleRow2();
    ExampleRow3();
    assert CountVisible(e, 5) == 0;
    assert CountVisible(e, 3) == 8;
    assert CountVisible(e, 1) == 16;
  }

  /**
   * `set_visibility`: a visible flag stays; otherwise the flag becomes
   * "taller than the running maximum".  Returns the new running maximum and
   * the flag.
   */
  method SetVisibility(g: array2<Tree>, x: int, y: int, height: int) returns (runningMax: int, visible: bool)
    requires 0 <= y < g.Length0 && 0 <= x < g.Length1
    modifies g
    ensures runningMax >= height && runningMax >= old(g[y, x].height)
    ensures runningMax == height || runningMax == old(g[y, x].height)
    ensures visible == (old(g[y, x].visible) == Some(true) || old(g[y, x].height) > height)
    ensures g[y, x] == old(g[y, x]).(visible := Some(visible))
    ensures forall i, j | 0 <= i < g.Length0 && 0 <= j < g.Length1 && (i != y || j != x) :: g[i, j] == old(g[i, j])
  {
    var curHeight := g[y, x].height;
    var curVisible := g[y, x].visible;
    if curVisible != Some(true) {
      g[y, x] := g[y, x].(visible := Some(curHeight > height));
    }
    runningMax := if curHeight > height then curHeight else height;
    visible := g[y, x].visible == Some(true);
  }

  predicate Edge(rows: int, cols: int, i: int, j: int)
  {
    i == 0 || i == rows - 1 || j == 0 || j == cols - 1
  }

  /** The left and right pass over interior row y. */
  method ScanRow(g: array2<Tree>, ghost h: seq<seq<int>>, y: int)
    requires HeightsAre(g, h) && 1 <= y < g.Length0 - 1 && g.Length1 >= 1
    requires forall j | 1 <= j < g.Length1 - 1 :: g[y, j].visible != Some(true)
    modifies g
    ensures forall j | 1 <= j < g.Length1 - 1 ::
      g[y, j] == old(g[y, j]).(visible := Some(ClearLeft(h, y, j) || ClearRight(h, y, j)))
    ensures forall i, j | 0 <= i < g.Length0 && 0 <= j < g.Length1 && (i != y || j == 0 || j >= g.Length1 - 1) ::
      g[i, j] == old(g[i, j])
  {
    var lastVisible := ScanLeft(g, h, y);
    ScanRight(g, h, y, lastVisible);
  }

  /**
   * The left pass: each interior tree of row y is visible from the left
   * exactly when it is taller than every tree before it.  Returns the last
   * tree found visible (0 if none).
   */
  method ScanLeft(g: array2<Tree>, ghost h: seq<seq<int>>, y: int) returns (lastVisible: int)
    requires HeightsAre(g, h) && 1 <= y < g.Length0 - 1 && g.Length1 >= 1
    requires forall j | 1 <= j < g.Length1 - 1 :: g[y, j].visible != Some(true)
    modifies g
    ensures HeightsAre(g, h)
    ensures 0 <= lastVisible && (lastVisible > 0 ==> lastVisible < g.Length1 - 1 && ClearLeft(h, y, lastVisible))
    ensures forall j | lastVisible < j < g.Length1 - 1 :: !ClearLeft(h, y, j)
    ensures forall j | 1 <= j < g.Length1 - 1 :: g[y, j] == old(g[y, j]).(visible := Some(ClearLeft(h, y, j)))
    ensures forall i, j | 0 <= i < g.Length0 && 0 <= j < g.Length1 && (i != y || j == 0 || j >= g.Length1 - 1) ::
      g[i, j] == old(g[i, j])
  {
    var w := g.Length1;
    assert |h[y]| == w;
    var height := g[y, 0].height;
    lastVisible := 0;
    ghost var hi := 0;
    var x := 1;
    while x < w - 1
      invariant 1 <= x && (w >= 2 ==> x <= w - 1)
      invariant 0 <= hi < x && hi < w && h[y][hi] == height
      invariant forall k | 0 <= k < x && k < w :: h[y][k] <= height
      invariant 0 <= lastVisible < x && (lastVisible > 0 ==> lastVisible < w && ClearLeft(h, y, lastVisible))
      invariant forall j | lastVisible < j < x && j < w :: !ClearLeft(h, y, j)
      invariant forall i, j | 0 <= i < g.Length0 && 0 <= j < w ::
        g[i, j] == if i == y && 1 <= j < x then old(g[i, j]).(visible := Some(ClearLeft(h, i, j))) else old(g[i, j])
    {
      assert g[y, x] == old(g[y, x]);
      BeatsLeft(h, y, x, hi, height);
      if h[y][x] > height {
        hi := x;
      }
      var visibility;
      height, visibility := SetVisibility(g, x, y, height);
      if visibility {
        lastVisible := x;
      }
      x := x + 1;
    }
  }

  /**
   * The right pass, from the right edge down to just after `lastVisible`:
   * trees left of the last one visible from the left are shorter than it,
   * so none of them is visible from the right.
   */
  method ScanRight(g: array2<Tree>, ghost h: seq<seq<int>>, y: int, lastVisible: int)
    requires HeightsAre(g, h) && 1 <= y < g.Length0 - 1 && g.Length1 >= 1
    requires 0 <= lastVisible && (lastVisible > 0 ==> lastVisible < g.Length1 - 1 && ClearLeft(h, y, lastVisible))
    requires forall j | lastVisible < j < g.Length1 - 1 :: !ClearLeft(h, y, j)
    requires forall j | 1 <= j < g.Length1 - 1 :: g[y, j].visible == Some(ClearLeft(h, y, j))
    modifies g
    ensures forall j | 1 <= j < g.Length1 - 1 ::
      g[y, j] == old(g[y, j]).(visible := Some(ClearLeft(h, y, j) || ClearRight(h, y, j)))
    ensures forall i, j | 0 <= i < g.Length0 && 0 <= j < g.Length1 && (i != y || j == 0 || j >= g.Length1 - 1) ::
      g[i, j] == old(g[i, j])
  {
    var w := g.Length1;
    assert |h[y]| == w;
    if lastVisible > 0 {
      HiddenBehind(h, y, lastVisible);
    }
    var height := g[y, w - 1].height;
    ghost var hj := w - 1;
    var x := w - 2;
    while x > lastVisible
      invariant -1 <= x <= w - 2 && (w >= 2 ==> lastVisible <= x)
      invariant x < hj < w && h[y][hj] == height
      invariant forall k | x < k < w :: h[y][k] <= height
      invariant forall i, j | 0 <= i < g.Length0 && 0 <= j < w ::
        g[i, j] == if i == y && x < j < w - 1 && 1 <= j
                   then old(g[i, j]).(visible := Some(ClearLeft(h, i, j) || ClearRight(h, i, j)))
                   else old(g[i, j])
    {
      assert !ClearLeft(h, y, x);
      BeatsRight(h, y, x, hj, height);
      if h[y][x] > height {
        hj := x;
      }
      var visibility;
      height, visibility := SetVisibility(g, x, y, height);
      x := x - 1;
    }
    forall j | 1 <= j <= x && j < w - 1
      ensures g[y, j] == old(g[y, j]).(visible := Some(ClearLeft(h, y, j) || ClearRight(h, y, j)))
    {
      assert (ClearLeft(h, y, j) || ClearRight(h, y, j)) == ClearLeft(h, y, j);
    }
  }

  /**
   * Against the running maximum `m` of the trees before it (reached at
   * `at`), a tree is clear to the left exactly when it is taller than `m`.
   */
  lemma BeatsLeft(h: seq<seq<int>>, y: int, x: int, at: int, m: int)
    requires InGrid(h, y, x) && 0 <= at < x && h[y][at] == m
    requires forall k | 0 <= k < x && k < |h[y]| :: h[y][k] <= m
    ensures h[y][x] > m <==> ClearLeft(h, y, x)
  {
  }

  /** The same for the trees after it, to the right. */
  lemma BeatsRight(h: seq<seq<int>>, y: int, x: int, at: int, m: int)
    requires InGrid(h, y, x) && x < at < |h[y]| && h[y][at] == m
    requires forall k | x < k < |h[y]| :: h[y][k] <= m
    ensures h[y][x] > m <==> ClearRight(h, y, x)
  {
  }

  /** The same for the trees above it. */
  lemma BeatsUp(h: seq<seq<int>>, y: int, x: int, at: int, m: int)
    requires InGrid(h, y, x) && Rect(h, |h[y]|) && 0 <= at < y && h[at][x] == m
    requires forall k | 0 <= k < y && k < |h| :: h[k][x] <= m
    ensures h[y][x] > m <==> ClearUp(h, y, x)
  {
  }

  /** The same for the trees below it. */
  lemma BeatsDown(h: seq<seq<int>>, y: int, x: int, at: int, m: int)
    requires InGrid(h, y, x) && Rect(h, |h[y]|) && y < at < |h| && h[at][x] == m
    requires forall k | y < k < |h| :: h[k][x] <= m
    ensures h[y][x] > m <==> ClearDown(h, y, x)
  {
  }

  /** Every tree left of one clear to the left is shorter than it, so not clear to the right. */
  lemma HiddenBehind(h: seq<seq<int>>, y: int, x: int)
    requires InGrid(h, y, x) && ClearLeft(h, y, x)
    ensures forall j | 0 <= j < x :: !ClearRight(h, y, j)
  {
    forall j | 0 <= j < x
      ensures !ClearRight(h, y, j)
    {
      assert h[y][j] < h[y][x];
    }
  }

  /** The top and bottom pass over interior column x. */
  method ScanColumn(g: array2<Tree>, ghost h: seq<seq<int>>, x: int)
    requires HeightsAre(g, h) && 1 <= x < g.Length1 - 1 && g.Length0 >= 1
    requires g[g.Length0 - 1, x].visible == Some(true)
    modifies g
    ensures forall i | 1 <= i < g.Length0 - 1 ::
      g[i, x] == old(g[i, x]).(visible := Some(old(g[i, x].visible) == Some(true) || ClearUp(h, i, x) || ClearDown(h, i, x)))
    ensures forall i, j | 0 <= i < g.Length0 && 0 <= j < g.Length1 && (j != x || i == 0 || i >= g.Length0 - 1) ::
      g[i, j] == old(g[i, j])
  {
    ScanDown(g, h, x);
    ScanUp(g, h, x);
  }

  /** The top pass: a flag already set stays, else it says "clear from the top". */
  method ScanDown(g: array2<Tree>, ghost h: seq<seq<int>>, x: int)
    requires HeightsAre(g, h) && 1 <= x < g.Length1 - 1 && g.Length0 >= 1
    modifies g
    ensures HeightsAre(g, h)
    ensures forall i | 1 <= i < g.Length0 - 1 ::
      g[i, x] == old(g[i, x]).(visible := Some(old(g[i, x].visible) == Some(true) || ClearUp(h, i, x)))
    ensures forall i, j | 0 <= i < g.Length0 && 0 <= j < g.Length1 && (j != x || i == 0 || i >= g.Length0 - 1) ::
      g[i, j] == old(g[i, j])
  {
    var rows := g.Length0;
    var height := g[0, x].height;
    ghost var hi := 0;
    var y := 1;
    while y < rows - 1
      invariant 1 <= y && (rows >= 2 ==> y <= rows - 1)
      invariant 0 <= hi < y && hi < rows && h[hi][x] == height
      invariant forall k | 0 <= k < y && k < rows :: h[k][x] <= height
      invariant forall i | 1 <= i < y && i < rows ::
        g[i, x] == old(g[i, x]).(visible := Some(old(g[i, x].visible) == Some(true) || ClearUp(h, i, x)))
      invariant forall i, j | 0 <= i < rows && 0 <= j < g.Length1 && (j != x || i == 0 || i >= y) :: g[i, j] == old(g[i, j])
    {
      BeatsUp(h, y, x, hi, height);
      if h[y][x] > height {
        hi := y;
      }
      var visibility;
      height, visibility := SetVisibility(g, x, y, height);
      y := y + 1;
    }
  }

  /**
   * The bottom pass, from the last row (already visible, so unchanged) up
   * to row 1: a flag already set stays, else it says "clear from the bottom".
   */
  method ScanUp(g: array2<Tree>, ghost h: seq<seq<int>>, x: int)
    requires HeightsAre(g, h) && 1 <= x < g.Length1 - 1 && g.Length0 >= 1
    requires g[g.Length0 - 1, x].visible == Some(true)
    modifies g
    ensures forall i | 1 <= i < g.Length0 - 1 ::
      g[i, x] == old(g[i, x]).(visible := Some(old(g[i, x].visible) == Some(true) || ClearDown(h, i, x)))
    ensures forall i, j | 0 <= i < g.Length0 && 0 <= j < g.Length1 && (j != x || i == 0 || i >= g.Length0 - 1) ::
      g[i, j] == old(g[i, j])
  {
    var rows := g.Length0;
    var height := g[rows - 1, x].height;
    ghost var hj := rows - 1;
    var y := rows - 1;
    while y > 0
      invariant 0 <= y <= rows - 1
      invariant y <= hj < rows && (y < rows - 1 ==> y < hj) && h[hj][x] == height
      invariant forall k | y < k < rows :: h[k][x] <= height
      invariant forall i | y < i < rows - 1 ::
        g[i, x] == old(g[i, x]).(visible := Some(old(g[i, x].visible) == Some(true) || ClearDown(h, i, x)))
      invariant forall i, j | 0 <= i < rows && 0 <= j < g.Length1 && (j != x || i == 0 || i >= rows - 1 || i <= y) ::
        g[i, j] == old(g[i, j])
    {
      if y < rows - 1 {
        BeatsDown(h, y, x, hj, height);
      }
      if h[y][x] > height {
        hj := y;
      }
      var visibility;
      height, visibility := SetVisibility(g, x, y, height);
      y := y - 1;
    }
  }

  /** No flag is set to visible yet, as in a freshly read grid. */
  ghost predicate NoneVisible(g: array2<Tree>)
    reads g
  {
    forall i, j | 0 <= i < g.Length0 && 0 <= j < g.Length1 :: g[i, j].visible != Some(true)
  }

  /**
   * `calculate_visibility`: afterwards every flag says whether its tree is
   * visible, and nothing else in the grid has changed.
   */
  method CalculateVisibility(g: array2<Tree>, ghost h: seq<seq<int>>)
    requires HeightsAre(g, h) && NoneVisible(g)
    requires g.Length0 >= 1 && (g.Length0 >= 3 ==> g.Length1 >= 1)
    modifies g
    ensures forall i, j | 0 <= i < g.Length0 && 0 <= j < g.Length1 ::
      g[i, j] == old(g[i, j]).(visible := Some(Visible(h, i, j)))
  {
    var rows, cols := g.Length0, g.Length1;
    MarkEdges(g);
    ScanRows(g, h);
    ScanColumns(g, h);
    forall i, j | 0 <= i < rows && 0 <= j < cols && Edge(rows, cols, i, j)
      ensures Visible(h, i, j)
    {
      EdgeVisible(h, cols, i, j);
    }
  }

  /** The first and last row, then the first and last column, are all visible. */
  method MarkEdges(g: array2<Tree>)
    requires g.Length0 >= 1 && (g.Length0 >= 3 ==> g.Length1 >= 1)
    modifies g
    ensures forall i, j | 0 <= i < g.Length0 && 0 <= j < g.Length1 ::
      g[i, j] == if Edge(g.Length0, g.Length1, i, j) then old(g[i, j]).(visible := Some(true)) else old(g[i, j])
  {
    var rows, cols := g.Length0, g.Length1;
    // row 0 and the last row
    var x := 0;
    while x < cols
      invariant 0 <= x <= cols
      invariant forall i, j | 0 <= i < rows && 0 <= j < cols ::
        g[i, j] == if (i == 0 || i == rows - 1) && j < x then old(g[i, j]).(visible := Some(true)) else old(g[i, j])
    {
      g[0, x] := g[0, x].(visible := Some(true));
      g[rows - 1, x] := g[rows - 1, x].(visible := Some(true));
      x := x + 1;
    }
    // column 0 and the last column
    var y := 1;
    while y < rows - 1
      invariant 1 <= y && (rows >= 2 ==> y <= rows - 1)
      invariant forall i, j | 0 <= i < rows && 0 <= j < cols ::
        g[i, j] == if i == 0 || i == rows - 1 || ((j == 0 || j == cols - 1) && i < y)
                   then old(g[i, j]).(visible := Some(true)) else old(g[i, j])
    {
      g[y, 0] := g[y, 0].(visible := Some(true));
      g[y, cols - 1] := g[y, cols - 1].(visible := Some(true));
      y := y + 1;
    }
  }

  /** The left and right view point: every interior row in turn. */
  method ScanRows(g: array2<Tree>, ghost h: seq<seq<int>>)
    requires HeightsAre(g, h) && (g.Length0 >= 3 ==> g.Length1 >= 1)
    requires forall i, j | 0 <= i < g.Length0 && 0 <= j < g.Length1 && !Edge(g.Length0, g.Length1, i, j) ::
      g[i, j].visible != Some(true)
    modifies g
    ensures forall i, j | 0 <= i < g.Length0 && 0 <= j < g.Length1 ::
      g[i, j] == if Edge(g.Length0, g.Length1, i, j) then old(g[i, j])
                 else old(g[i, j]).(visible := Some(ClearLeft(h, i, j) || ClearRight(h, i, j)))
  {
    var rows, cols := g.Length0, g.Length1;
    var y := 1;
    while y < rows - 1
      invariant 1 <= y && (rows >= 2 ==> y <= rows - 1)
      invariant HeightsAre(g, h)
      invariant forall i, j | 0 <= i < rows && 0 <= j < cols ::
        g[i, j] == if !Edge(rows, cols, i, j) && i < y
                   then old(g[i, j]).(visible := Some(ClearLeft(h, i, j) || ClearRight(h, i, j)))
                   else old(g[i, j])
    {
      ScanRow(g, h, y);
      y := y + 1;
    }
  }

  /** The top and bottom view point: every interior column in turn. */
  method ScanColumns(g: array2<Tree>, ghost h: seq<seq<int>>)
    requires HeightsAre(g, h) && g.Length0 >= 1
    requires forall i, j | 0 <= i < g.Length0 && 0 <= j < g.Length1 && Edge(g.Length0, g.Length1, i, j) ::
      g[i, j].visible == Some(true)
    modifies g
    ensures forall i, j | 0 <= i < g.Length0 && 0 <= j < g.Length1 ::
      g[i, j] == if Edge(g.Length0, g.Length1, i, j) then old(g[i, j])
                 else old(g[i, j]).(visible := Some(old(g[i, j].visible) == Some(true) || ClearUp(h, i, j) || ClearDown(h, i, j)))
  {
    var rows, cols := g.Length0, g.Length1;
    var x := 1;
    while x < cols - 1
      invariant 1 <= x && (cols >= 2 ==> x <= cols - 1)
      invariant HeightsAre(g, h)
      invariant forall i, j | 0 <= i < rows && 0 <= j < cols ::
        g[i, j] == if !Edge(rows, cols, i, j) && j < x
                   then old(g[i, j]).(visible := Some(old(g[i, j].visible) == Some(true) || ClearUp(h, i, j) || ClearDown(h, i, j)))
                   else old(g[i, j])
    {
      ScanColumn(g, h, x);
      x := x + 1;
    }
  }

  /**
   * `find_tree_distance`: walks from (y, x) in direction `d` counting trees
   * until the edge or the first tree at least as tall.
   */
  method ViewingDistance(g: array2<Tree>, ghost h: seq<seq<int>>, x: int, y: int, d: Direction) returns (count: nat)
    requires HeightsAre(g, h) && 0 <= y < g.Length0 && 0 <= x < g.Length1
    ensures count == Distance(h[y][x], Sight(h, y, x, d))
  {
    var treeHeight := g[y, x].height;
    var (xMove, yMove) := Step(d);
    count := 0;
    var xCur, yCur := x + xMove, y + yMove;
    ghost var px, py := x, y;
    ghost var total := Distance(treeHeight, Sight(h, y, x, d));
    while 0 <= xCur && xCur < g.Length1 && 0 <= yCur && yCur < g.Length0
      invariant 0 <= py < g.Length0 && 0 <= px < g.Length1
      invariant xCur == px + xMove && yCur == py + yMove
      invariant total == count + Distance(treeHeight, Sight(h, py, px, d))
      decreases Room(h, py, px, d)
    {
      DistanceStep(g, h, py, px, yCur, xCur, d, treeHeight);
      var checkHeight := g[yCur, xCur].height;
      count := count + 1;
      if checkHeight >= treeHeight {
        return;
      }
      RoomShrinks(h, py, px, d);
      px, py := xCur, yCur;
      xCur, yCur := xCur + xMove, yCur + yMove;
    }
    DistanceEdge(g, h, py, px, d, treeHeight);
  }

  /**
   * One step of a walk from (y, x) to its neighbour (ny, nx) in direction
   * `d`, inside the grid: the neighbour counts, and the walk goes on past it
   * only when it is shorter than `v`.
   */
  lemma DistanceStep(g: array2<Tree>, h: seq<seq<int>>, y: int, x: int, ny: int, nx: int, d: Direction, v: int)
    requires HeightsAre(g, h) && 0 <= ny < g.Length0 && 0 <= nx < g.Length1
    requires ny == y + Step(d).1 && nx == x + Step(d).0
    ensures g[ny, nx].height == h[ny][nx]
    ensures Distance(v, Sight(h, y, x, d)) == if h[ny][nx] >= v then 1 else 1 + Distance(v, Sight(h, ny, nx, d))
  {
    assert |h[ny]| == g.Length1;
    SightCons(h, y, x, ny, nx, d);
    DistanceCons(v, h[ny][nx], Sight(h, ny, nx, d));
  }

  /** A sight line whose next step stays in the grid starts with that tree. */
  lemma SightCons(h: seq<seq<int>>, y: int, x: int, ny: int, nx: int, d: Direction)
    requires InGrid(h, ny, nx) && ny == y + Step(d).1 && nx == x + Step(d).0
    ensures Sight(h, y, x, d) == [h[ny][nx]] + Sight(h, ny, nx, d)
  {
  }

  /** A walk whose next step leaves the grid counts nothing. */
  lemma DistanceEdge(g: array2<Tree>, h: seq<seq<int>>, y: int, x: int, d: Direction, v: int)
    requires HeightsAre(g, h) && 0 <= y < g.Length0
    requires !(0 <= x + Step(d).0 < g.Length1 && 0 <= y + Step(d).1 < g.Length0)
    ensures Distance(v, Sight(h, y, x, d)) == 0
  {
    var ny := y + Step(d).1;
    if 0 <= ny < g.Length0 {
      assert |h[ny]| == g.Length1;
    }
  }

  /** `Distance` of a line that starts with a tree of height `a`. */
  lemma DistanceCons(v: int, a: int, s: seq<int>)
    ensures Distance(v, [a] + s) == if a >= v then 1 else 1 + Distance(v, s)
  {
    assert ([a] + s)[1..] == s;
  }

  lemma RoomShrinks(h: seq<seq<int>>, y: int, x: int, d: Direction)
    requires 0 <= y < |h| && 0 <= y + Step(d).1 < |h| && Rect(h, if |h| > 0 then |h[0]| else 0)
    ensures Room(h, y + Step(d).1, x + Step(d).0, d) < Room(h, y, x, d)
  {
  }

  /** `calculate_scenic_score` at (y, x). */
  method ScenicScore(g: array2<Tree>, ghost h: seq<seq<int>>, x: int, y: int) returns (score: int)
    requires HeightsAre(g, h) && 0 <= y < g.Length0 && 0 <= x < g.Length1
    ensures score == Score(h, y, x)
  {
    assert |h| == g.Length0 && |h[y]| == g.Length1;
    if x == 0 || x == g.Length1 - 1 || y == 0 || y == g.Length0 - 1 {
      return 0;
    }
    var left := ViewingDistance(g, h, x, y, Left);
    var right := ViewingDistance(g, h, x, y, Right);
    var top := ViewingDistance(g, h, x, y, Up);
    var bottom := ViewingDistance(g, h, x, y, Down);
    score := Product(top, bottom, left, right);
  }

  /** `calculate_all_scenic_scores`: writes every cell's score and nothing else. */
  method CalculateAllScenicScores(g: array2<Tree>, ghost h: seq<seq<int>>)
    requires HeightsAre(g, h)
    modifies g
    ensures forall i, j | 0 <= i < g.Length0 && 0 <= j < g.Length1 ::
      g[i, j] == old(g[i, j]).(scenic := Some(Score(h, i, j)))
  {
    var y := 0;
    while y < g.Length0
      invariant 0 <= y <= g.Length0
      invariant HeightsAre(g, h)
      invariant forall i, j | 0 <= i < g.Length0 && 0 <= j < g.Length1 ::
        g[i, j] == if i < y then old(g[i, j]).(scenic := Some(Score(h, i, j))) else old(g[i, j])
    {
      var x := 0;
      while x < g.Length1
        invariant 0 <= x <= g.Length1
        invariant HeightsAre(g, h)
        invariant forall i, j | 0 <= i < g.Length0 && 0 <= j < g.Length1 ::
          g[i, j] == if i < y || (i == y && j < x) then old(g[i, j]).(scenic := Some(Score(h, i, j))) else old(g[i, j])
      {
        var s := ScenicScore(g, h, x, y);
        g[y, x] := g[y, x].(scenic := Some(s));
        x := x + 1;
      }
      y := y + 1;
    }
  }
}
