/**
  day9.py: a rope of knots on an integer grid. The head is moved by
  direction letters; after every unit step of a knot, the knot linked to it
  follows when it is no longer touching, and every knot records the cells
  it has stood on.

  The chain of linked `Position` objects is the sequence `knots`: knot
  `k + 1` is the linked position of knot `k`.
 */
module Rope {

  import opened Common
  import opened PyStr

  type Cell = (int, int)

  datatype Knot = Knot(x: int, y: int, visited: seq<Cell>)

  datatype PositionError = InvalidDirection | AlreadyLinked | MissingField | BadStep | Diverges

  function Abs(n: int): nat {
    if n < 0 then -n else n
  }

  /** `_sign_int`: the sign of `number`. */
  function SignInt(number: int): (r: int)
    ensures r == 0 <==> number == 0
    ensures r == 1 <==> number > 0
    ensures r == -1 <==> number < 0
    ensures r * number == Abs(number)
  {
    if number == 0 then 0 else if number > 0 then 1 else -1
  }

  /** `_lookup`: the offset one step in a direction takes; x grows to the right, y downwards. */
  function Offset(direction: string): (r: Option<Cell>)
    ensures r.Some? <==> direction in {"L", "R", "U", "D"}
    ensures r.Some? ==> Abs(r.value.0) + Abs(r.value.1) == 1
    ensures r.Some? ==> (r.value.0 != 0 <==> direction in {"L", "R"})
  {
    if direction == "L" then Some((-1, 0))
    else if direction == "R" then Some((1, 0))
    else if direction == "U" then Some((0, -1))
    else if direction == "D" then Some((0, 1))
    else None
  }

  /** Opposite letters undo each other, and the four steps are different. */
  lemma OffsetsOpposite()
    ensures Offset("L").value.0 == -Offset("R").value.0 && Offset("L").value.1 == Offset("R").value.1
    ensures Offset("U").value.1 == -Offset("D").value.1 && Offset("U").value.0 == Offset("D").value.0
    ensures |{Offset("L"), Offset("R"), Offset("U"), Offset("D")}| == 4
  {
    assert Offset("L") != Offset("R") && Offset("U") != Offset("D");
  }

  /** Two knots this far apart touch: equal, side by side or diagonal neighbours. */
  predicate Touching(dx: int, dy: int) {
    -1 <= dx <= 1 && -1 <= dy <= 1
  }

  /** A step that moves each coordinate by at most one. */
  predicate KingStep(d: Cell) {
    Touching(d.0, d.1)
  }

  /**
    The move of a follower that no longer touches a knot `(dx, dy)` ahead:
    toward it on both axes, ending next to it.
   */
  function FollowStep(dx: int, dy: int): (r: Cell)
    requires !Touching(dx, dy)
    ensures r != (0, 0)
    ensures r.0 * dx >= 0 && r.1 * dy >= 0
    ensures Touching(dx - r.0, dy - r.1)
    ensures Abs(dx) <= 2 && Abs(dy) <= 2 ==> r == (SignInt(dx), SignInt(dy))
  {
    if Abs(dx) > 1 && Abs(dy) == 1 then
      (dx - SignInt(dx), dy)
    else if Abs(dy) > 1 && Abs(dx) == 1 then
      (dx, dy - SignInt(dy))
    else
      (dx - SignInt(dx), dy - SignInt(dy))
  }

  /** A knot that touches the knot ahead before one king step of it is at most two away after. */
  lemma FollowAfterKingStep(dx: int, dy: int, d: Cell)
    requires Touching(dx, dy) && KingStep(d) && !Touching(dx + d.0, dy + d.1)
    ensures KingStep(FollowStep(dx + d.0, dy + d.1))
  {
  }

  // ---------------------------------------------------------------------
  // Visited cells

  predicate NoDupCells(s: seq<Cell>) {
    forall i, j | 0 <= i < j < |s| :: s[i] != s[j]
  }

  /** Where `n` steps of `d` from `start` lead. */
  function Walk(start: Cell, d: Cell, n: nat): Cell {
    if n == 0 then start else var p := Walk(start, d, n - 1); (p.0 + d.0, p.1 + d.1)
  }

  lemma {:induction false} WalkLinear(start: Cell, d: Cell, n: nat)
    ensures Walk(start, d, n) == (start.0 + n * d.0, start.1 + n * d.1)
  {
    if n > 0 {
      WalkLinear(start, d, n - 1);
      assert (n - 1) * d.0 + d.0 == n * d.0 && (n - 1) * d.1 + d.1 == n * d.1;
    }
  }

  /** The cell `step` multiples of `d` away from `p`. */
  function Shift(p: Cell, d: Cell, step: int): Cell {
    (p.0 + step * d.0, p.1 + step * d.1)
  }

  /** The cells a walk from `start` passes in `n` steps of `d`, the start excluded. */
  function Line(start: Cell, d: Cell, n: nat): (r: seq<Cell>)
    ensures |r| == n
  {
    if n == 0 then [] else Line(start, d, n - 1) + [Walk(start, d, n)]
  }

  /** The `j`-th cell of the line is `j + 1` steps from the start. */
  lemma {:induction false} LineAt(start: Cell, d: Cell, n: nat, j: nat)
    requires j < n
    ensures Line(start, d, n)[j] == (start.0 + (j + 1) * d.0, start.1 + (j + 1) * d.1)
  {
    if j < n - 1 {
      LineAt(start, d, n - 1, j);
    } else {
      WalkLinear(start, d, n);
    }
  }

  lemma LineSnoc(start: Cell, d: Cell, n: nat)
    ensures Line(start, d, n + 1) == Line(start, d, n) + [Walk(start, d, n + 1)]
  {
  }

  /** `vs` with each cell of `cs` appended in turn unless already present. */
  function AddAll(vs: seq<Cell>, cs: seq<Cell>): seq<Cell>
  {
    if cs == [] then vs
    else
      var w := AddAll(vs, cs[..|cs| - 1]);
      if cs[|cs| - 1] in w then w else w + [cs[|cs| - 1]]
  }

  /** The visited list only grows, gains exactly the cells walked, and never repeats one. */
  lemma {:induction false} AddAllFacts(vs: seq<Cell>, cs: seq<Cell>)
    ensures vs <= AddAll(vs, cs)
    ensures forall c :: c in AddAll(vs, cs) <==> c in vs || c in cs
    ensures NoDupCells(vs) ==> NoDupCells(AddAll(vs, cs))
    decreases |cs|
  {
    if cs != [] {
      AddAllFacts(vs, cs[..|cs| - 1]);
      var last := cs[|cs| - 1];
      assert forall c :: c in cs <==> c in cs[..|cs| - 1] || c == last by {
        assert cs == cs[..|cs| - 1] + [last];
      }
    }
  }

  /** Recording one more cell extends the walked line by it. */
  lemma AddAllStep(vs: seq<Cell>, cs: seq<Cell>, c: Cell)
    ensures AddAll(AddAll(vs, cs), [c]) == AddAll(vs, cs + [c])
  {
    assert (cs + [c])[..|cs|] == cs;
    assert AddAll(AddAll(vs, cs), []) == AddAll(vs, cs);
  }

  /** A walk of nonzero steps reaches its `n`-step target only after exactly `n` steps. */
  lemma WalkMeets(start: Cell, d: Cell, i: nat, n: nat)
    requires d != (0, 0) && i < n
    ensures Walk(start, d, i) != Walk(start, d, n)
  {
    WalkLinear(start, d, i);
    WalkLinear(start, d, n);
    if d.0 != 0 {
      assert (n - i) * d.0 != 0;
    } else {
      assert (n - i) * d.1 != 0;
    }
  }

  // ---------------------------------------------------------------------
  // The chain

  /** Every knot from `k` on touches the knot it follows. */
  ghost predicate TouchingFrom(ks: seq<Knot>, k: nat) {
    forall j | k <= j && j + 1 < |ks| :: Follows(ks, j)
  }

  /** Knot `j + 1` touches knot `j`. */
  ghost predicate Follows(ks: seq<Knot>, j: nat)
    requires j + 1 < |ks|
  {
    Touching(ks[j].x - ks[j + 1].x, ks[j].y - ks[j + 1].y)
  }

  /** The knots after `k` touch their leaders, and the first of them touches `cur`. */
  ghost predicate Chained(ks: seq<Knot>, k: nat, cur: Cell) {
    && TouchingFrom(ks, k + 1)
    && (k + 1 < |ks| ==> Touching(cur.0 - ks[k + 1].x, cur.1 - ks[k + 1].y))
  }

  /** One king step of the walked cell leaves the follower at most two away. */
  lemma ChainedStep(ks: seq<Knot>, k: nat, prev: Cell, d: Cell)
    requires Chained(ks, k, prev) && KingStep(d) && k + 1 < |ks|
    ensures Abs(prev.0 + d.0 - ks[k + 1].x) <= 2 && Abs(prev.1 + d.1 - ks[k + 1].y) <= 2
  {
  }

  /** Recording a cell on knot `k` leaves the chain behind it as it was. */
  lemma ChainedFrame(ks: seq<Knot>, k: nat, kn: Knot, cur: Cell)
    requires k < |ks| && Chained(ks, k, cur)
    ensures Chained(ks[k := kn], k, cur)
  {
    var us := ks[k := kn];
    forall j | k + 1 <= j && j + 1 < |us| ensures Follows(us, j) {
      assert Follows(ks, j);
      assert us[j] == ks[j] && us[j + 1] == ks[j + 1];
    }
  }

  /** Before the walk, the chain behind knot `k` touches the knot's own cell. */
  lemma ChainedStart(ks: seq<Knot>, k: nat, kn: Knot)
    requires k < |ks| && TouchingFrom(ks, k)
    ensures Chained(ks[k := kn], k, (ks[k].x, ks[k].y))
  {
    if k + 1 < |ks| {
      assert Follows(ks, k);
    }
    ChainedFrame(ks, k, kn, (ks[k].x, ks[k].y));
  }

  /** A walk that has reached the knot's own cell leaves the whole chain touching. */
  lemma ChainedDone(ks: seq<Knot>, k: nat, cur: Cell)
    requires k < |ks| && Chained(ks, k, cur) && cur == (ks[k].x, ks[k].y)
    ensures TouchingFrom(ks, k)
  {
  }

  /** Each knot from `k` on has kept its earlier visited list as a prefix. */
  ghost predicate GrewFrom(before: seq<Knot>, after: seq<Knot>, k: nat)
    requires |before| == |after|
  {
    forall j | k <= j < |after| :: before[j].visited <= after[j].visited
  }

  /** No knot's visited list repeats a cell. */
  ghost predicate AllNoDup(ks: seq<Knot>) {
    forall j | 0 <= j < |ks| :: NoDupCells(ks[j].visited)
  }

  // ---------------------------------------------------------------------
  // The chain as a function of the knots

  /**
    The knots after knot `k` steps onto `cur` inside `move_using_coordinates`:
    the cell is recorded unless knot `k` has been there before; then the
    follower, unless it still touches `cur`, makes its own
    `FollowStep` move of one step.
   */
  function AfterVisit(ks: seq<Knot>, k: nat, cur: Cell): (r: seq<Knot>)
    requires k < |ks|
    ensures |r| == |ks|
    decreases |ks| - k, 0, 0
  {
    var vs := ks[k].visited;
    var recorded := ks[k := ks[k].(visited := if cur in vs then vs else vs + [cur])];
    if k + 1 < |ks| && !Touching(cur.0 - ks[k + 1].x, cur.1 - ks[k + 1].y) then
      AfterMove(recorded, k + 1, FollowStep(cur.0 - ks[k + 1].x, cur.1 - ks[k + 1].y), 1)
    else
      recorded
  }

  /**
    The knots after `move_using_coordinates(instr, step)` on knot `k`: the
    knot jumps to its target, then walks the cells on the way. With a zero
    offset the target is the start, and no cell is walked.
   */
  function AfterMove(ks: seq<Knot>, k: nat, instr: Cell, step: nat): (r: seq<Knot>)
    requires k < |ks|
    ensures |r| == |ks|
    decreases |ks| - k, 2, 0
  {
    var start := (ks[k].x, ks[k].y);
    var target := Shift(start, instr, step);
    AfterWalk(ks[k := ks[k].(x := target.0, y := target.1)], k, start, instr, if instr == (0, 0) then 0 else step)
  }

  /** The knots after knot `k` has visited the first `i` cells of its walk from `from`. */
  function AfterWalk(ks: seq<Knot>, k: nat, from: Cell, instr: Cell, i: nat): (r: seq<Knot>)
    requires k < |ks|
    ensures |r| == |ks|
    decreases |ks| - k, 1, i
  {
    if i == 0 then ks else AfterVisit(AfterWalk(ks, k, from, instr, i - 1), k, Walk(from, instr, i))
  }

  /**
    A visit leaves the knots before `k` as they were. Knot `k` gains `cur` in
    its visited list, and keeps its place. The knots behind it only add to
    their lists, and no list ever repeats a cell.
   */
  lemma {:induction false} VisitFrame(ks: seq<Knot>, k: nat, cur: Cell)
    requires k < |ks|
    ensures var r := AfterVisit(ks, k, cur);
      && r[..k] == ks[..k]
      && r[k] == ks[k].(visited := AddAll(ks[k].visited, [cur]))
      && GrewFrom(ks, r, k + 1)
      && (AllNoDup(ks) ==> AllNoDup(r))
    decreases |ks| - k, 0, 0
  {
    var vs := ks[k].visited;
    assert AddAll(vs, []) == vs;
    AddAllFacts(vs, [cur]);
    var recorded := ks[k := ks[k].(visited := AddAll(vs, [cur]))];
    if k + 1 < |ks| && !Touching(cur.0 - ks[k + 1].x, cur.1 - ks[k + 1].y) {
      var m := FollowStep(cur.0 - ks[k + 1].x, cur.1 - ks[k + 1].y);
      MoveFrame(recorded, k + 1, m, 1);
      var r := AfterMove(recorded, k + 1, m, 1);
      assert r[k] == r[..k + 1][k] && recorded[k] == recorded[..k + 1][k];
      assert r[..k] == r[..k + 1][..k] && recorded[..k] == recorded[..k + 1][..k];
    }
  }

  /**
    A move of knot `k` leaves the knots before it as they were. The knot
    ends `n` steps of `instr` from its start and has recorded the cells
    passed. Every knot from `k` on only adds to its list, and no list ever
    repeats a cell.
   */
  lemma {:induction false} MoveFrame(ks: seq<Knot>, k: nat, instr: Cell, step: nat)
    requires k < |ks|
    ensures var start, n := (ks[k].x, ks[k].y), if instr == (0, 0) then 0 else step;
      var r := AfterMove(ks, k, instr, step);
      && r[..k] == ks[..k]
      && (r[k].x, r[k].y) == Walk(start, instr, n)
      && r[k].visited == AddAll(ks[k].visited, Line(start, instr, n))
      && GrewFrom(ks, r, k)
      && (AllNoDup(ks) ==> AllNoDup(r))
    decreases |ks| - k, 2, 0
  {
    var start := (ks[k].x, ks[k].y);
    var n: nat := if instr == (0, 0) then 0 else step;
    var target := Shift(start, instr, step);
    WalkLinear(start, instr, step);
    WalkLinear(start, instr, n);
    var moved := ks[k := ks[k].(x := target.0, y := target.1)];
    assert target == Walk(start, instr, n);
    WalkFrame(moved, k, start, instr, n);
    AddAllFacts(ks[k].visited, Line(start, instr, n));
    var r := AfterWalk(moved, k, start, instr, n);
    assert r == AfterMove(ks, k, instr, step);
    assert moved[..k] == ks[..k];
    assert r[k].visited == AddAll(ks[k].visited, Line(start, instr, n));
    assert GrewFrom(ks, r, k) by {
      forall j | k <= j < |r| ensures ks[j].visited <= r[j].visited {
        if j > k {
          assert moved[j] == ks[j];
        }
      }
    }
    assert AllNoDup(ks) ==> AllNoDup(r) by {
      if AllNoDup(ks) {
        assert AllNoDup(moved) by {
          forall j | 0 <= j < |moved| ensures NoDupCells(moved[j].visited) {
            assert moved[j].visited == ks[j].visited;
          }
        }
      }
    }
  }

  /** The walk of knot `k` over the cells of its line, with the same frame as a visit. */
  lemma {:induction false} WalkFrame(ks: seq<Knot>, k: nat, from: Cell, instr: Cell, i: nat)
    requires k < |ks|
    ensures var r := AfterWalk(ks, k, from, instr, i);
      && r[..k] == ks[..k]
      && r[k] == ks[k].(visited := AddAll(ks[k].visited, Line(from, instr, i)))
      && GrewFrom(ks, r, k + 1)
      && (AllNoDup(ks) ==> AllNoDup(r))
    decreases |ks| - k, 1, i
  {
    if i == 0 {
      assert AddAll(ks[k].visited, []) == ks[k].visited;
    } else {
      var w := AfterWalk(ks, k, from, instr, i - 1);
      var c := Walk(from, instr, i);
      WalkFrame(ks, k, from, instr, i - 1);
      VisitFrame(w, k, c);
      AddAllStep(ks[k].visited, Line(from, instr, i - 1), c);
      LineSnoc(from, instr, i - 1);
      var r := AfterVisit(w, k, c);
      forall j | k + 1 <= j < |r| ensures ks[j].visited <= r[j].visited {
        assert ks[j].visited <= w[j].visited <= r[j].visited;
      }
    }
  }

  /**
    A visit one king step from the last cell keeps the chain behind knot `k`
    touching, now up to `cur`.
   */
  lemma {:induction false} VisitChain(ks: seq<Knot>, k: nat, cur: Cell, prev: Cell)
    requires k < |ks| && Chained(ks, k, prev) && KingStep((cur.0 - prev.0, cur.1 - prev.1))
    ensures Chained(AfterVisit(ks, k, cur), k, cur)
    decreases |ks| - k, 0, 0
  {
    var vs := ks[k].visited;
    var recorded := ks[k := ks[k].(visited := if cur in vs then vs else vs + [cur])];
    ChainedFrame(ks, k, recorded[k], prev);
    if k + 1 < |ks| {
      var d := (cur.0 - prev.0, cur.1 - prev.1);
      ChainedStep(ks, k, prev, d);
      var dx, dy := cur.0 - ks[k + 1].x, cur.1 - ks[k + 1].y;
      if !Touching(dx, dy) {
        var m := FollowStep(dx, dy);
        FollowAfterKingStep(prev.0 - ks[k + 1].x, prev.1 - ks[k + 1].y, d);
        assert (prev.0 - ks[k + 1].x + d.0, prev.1 - ks[k + 1].y + d.1) == (dx, dy);
        MoveChain(recorded, k + 1, m, 1);
        MoveFrame(recorded, k + 1, m, 1);
      }
    }
  }

  /** A move by king steps keeps every knot from `k` on touching the knot it follows. */
  lemma {:induction false} MoveChain(ks: seq<Knot>, k: nat, instr: Cell, step: nat)
    requires k < |ks| && KingStep(instr) && TouchingFrom(ks, k)
    ensures TouchingFrom(AfterMove(ks, k, instr, step), k)
    decreases |ks| - k, 2, 0
  {
    var start := (ks[k].x, ks[k].y);
    var n: nat := if instr == (0, 0) then 0 else step;
    var target := Shift(start, instr, step);
    WalkLinear(start, instr, step);
    WalkLinear(start, instr, n);
    var moved := ks[k := ks[k].(x := target.0, y := target.1)];
    ChainedStart(ks, k, moved[k]);
    WalkChain(moved, k, start, instr, n);
    WalkFrame(moved, k, start, instr, n);
    ChainedDone(AfterWalk(moved, k, start, instr, n), k, Walk(start, instr, n));
  }

  /** After `i` cells of the walk, the chain behind knot `k` touches the `i`-th cell. */
  lemma {:induction false} WalkChain(ks: seq<Knot>, k: nat, from: Cell, instr: Cell, i: nat)
    requires k < |ks| && KingStep(instr) && Chained(ks, k, from)
    ensures Chained(AfterWalk(ks, k, from, instr, i), k, Walk(from, instr, i))
    decreases |ks| - k, 1, i
  {
    if i > 0 {
      WalkChain(ks, k, from, instr, i - 1);
      VisitChain(AfterWalk(ks, k, from, instr, i - 1), k, Walk(from, instr, i), Walk(from, instr, i - 1));
    }
  }

  /**
    The follower of knot `k` stays where it is while it touches the visited
    cell. Otherwise it takes its `FollowStep` toward the cell and records
    the cell it lands on.
   */
  lemma VisitMovesFollower(ks: seq<Knot>, k: nat, cur: Cell)
    requires k + 1 < |ks|
    ensures var r, dx, dy := AfterVisit(ks, k, cur), cur.0 - ks[k + 1].x, cur.1 - ks[k + 1].y;
      && (Touching(dx, dy) ==> r[k + 1..] == ks[k + 1..])
      && (!Touching(dx, dy) ==>
           var m := FollowStep(dx, dy);
           var c := (ks[k + 1].x + m.0, ks[k + 1].y + m.1);
           && (r[k + 1].x, r[k + 1].y) == c
           && r[k + 1].visited == AddAll(ks[k + 1].visited, [c]))
  {
    var vs := ks[k].visited;
    var recorded := ks[k := ks[k].(visited := if cur in vs then vs else vs + [cur])];
    var dx, dy := cur.0 - ks[k + 1].x, cur.1 - ks[k + 1].y;
    if Touching(dx, dy) {
      assert recorded[k + 1..] == ks[k + 1..];
    } else {
      var m := FollowStep(dx, dy);
      MoveFrame(recorded, k + 1, m, 1);
      assert Line((ks[k + 1].x, ks[k + 1].y), m, 1) == [Walk((ks[k + 1].x, ks[k + 1].y), m, 1)];
    }
  }

  class Rope {
    var knots: seq<Knot>

    ghost predicate Valid()
      reads this
    {
      |knots| >= 1 && AllNoDup(knots)
    }

    /** `Position(x, y)`: the visited list starts at the origin whatever `x` and `y` are. */
    constructor (x: int, y: int)
      ensures Valid() && knots == [Knot(x, y, [(0, 0)])]
    {
      knots := [Knot(x, y, [(0, 0)])];
    }

    /** `create_linked_position`: a follower at the knot's cell, once only. */
    method CreateLinked(k: nat) returns (r: Result<nat, PositionError>)
      requires Valid() && k < |knots|
      modifies this
      ensures Valid()
      ensures k + 1 < |old(knots)| ==> r == Err(AlreadyLinked) && knots == old(knots)
      ensures k + 1 == |old(knots)| ==>
        r == Ok(k + 1) && knots == old(knots) + [Knot(old(knots[k].x), old(knots[k].y), [(0, 0)])]
    {
      if k + 1 < |knots| {
        return Err(AlreadyLinked);
      }
      knots := knots + [Knot(knots[k].x, knots[k].y, [(0, 0)])];
      return Ok(k + 1);
    }

    /** One cell of the walk of knot `k`, as `AfterVisit` describes it. */
    method Visit(k: nat, cur: Cell)
      requires Valid() && k < |knots|
      modifies this
      ensures Valid() && knots == AfterVisit(old(knots), k, cur)
      decreases |knots| - k, 0
    {
      VisitFrame(knots, k, cur);
      ghost var vs := knots[k].visited;
      ghost var recorded := knots[k := knots[k].(visited := if cur in vs then vs else vs + [cur])];
      if cur !in knots[k].visited {
        knots := knots[k := knots[k].(visited := knots[k].visited + [cur])];
      }
      assert knots == recorded;
      if k + 1 < |knots| {
        var link := knots[k + 1];
        var ldx := cur.0 - link.x;
        var ldy := cur.1 - link.y;
        if !Touching(ldx, ldy) {
          var m := FollowStep(ldx, ldy);
          MoveUsingCoordinates(k + 1, m, 1);
        }
      }
    }

    /**
      `move_using_coordinates`: the knot jumps to its target at once, then the
      cells on the way are walked one step at a time; each is recorded if new,
      and the follower takes its step after each.
     */
    method MoveUsingCoordinates(k: nat, instr: Cell, step: int)
      requires Valid() && k < |knots| && step >= 0
      modifies this
      ensures Valid() && knots == AfterMove(old(knots), k, instr, step)
      decreases |knots| - k, 2
    {
      var cur := (knots[k].x, knots[k].y);
      ghost var n: nat := if instr == (0, 0) then 0 else step;
      var target := Shift(cur, instr, step);
      assert target == Walk(cur, instr, n) by {
        WalkLinear(cur, instr, step);
        WalkLinear(cur, instr, n);
      }
      knots := knots[k := knots[k].(x := target.0, y := target.1)];
      WalkCells(k, cur, instr, n);
    }

    /**
      The loop of `move_using_coordinates`: with knot `k` already at its
      target `n` steps of `instr` from `from`, each cell on the way is
      visited in turn.
     */
    method WalkCells(k: nat, from: Cell, instr: Cell, ghost n: nat)
      requires Valid() && k < |knots|
      requires (knots[k].x, knots[k].y) == Walk(from, instr, n) && (instr == (0, 0) ==> n == 0)
      modifies this
      ensures Valid() && knots == AfterWalk(old(knots), k, from, instr, n)
      decreases |knots| - k, 1
    {
      var (dx, dy) := instr;
      var cur := from;
      var target := (knots[k].x, knots[k].y);
      ghost var before := knots;
      ghost var i: nat := 0;
      while cur != target
        invariant i <= n && cur == Walk(from, instr, i)
        invariant Valid() && knots == AfterWalk(before, k, from, instr, i)
        decreases n - i
      {
        if i == n {
          assert false;
        }
        cur := (cur.0 + dx, cur.1 + dy);
        Visit(k, cur);
        i := i + 1;
      }
      if i < n {
        WalkMeets(from, instr, i, n);
        assert false;
      }
    }

    /** `move`: one of the four letters, `step` times; an unknown letter raises before any move. */
    method Move(direction: string, step: int) returns (r: Result<(), PositionError>)
      requires Valid() && (Offset(direction).Some? ==> step >= 0)
      modifies this
      ensures Valid() && |knots| == |old(knots)|
      ensures Offset(direction).None? ==> r == Err(InvalidDirection) && knots == old(knots)
      ensures Offset(direction).Some? ==>
        && r == Ok(())
        && knots == AfterMove(old(knots), 0, Offset(direction).value, step)
        && knots[0].x == old(knots[0].x) + step * Offset(direction).value.0
        && knots[0].y == old(knots[0].y) + step * Offset(direction).value.1
        && knots[0].visited == AddAll(old(knots[0].visited), Line((old(knots[0].x), old(knots[0].y)), Offset(direction).value, step))
      ensures old(TouchingFrom(knots, 0)) ==> TouchingFrom(knots, 0)
    {
      var offset := Offset(direction);
      if offset.None? {
        return Err(InvalidDirection);
      }
      ghost var before := knots;
      MoveFrame(knots, 0, offset.value, step);
      if TouchingFrom(knots, 0) {
        MoveChain(knots, 0, offset.value, step);
      }
      WalkLinear((knots[0].x, knots[0].y), offset.value, step);
      MoveUsingCoordinates(0, offset.value, step);
      return Ok(());
    }
  }

  // ---------------------------------------------------------------------
  // main

  /** The knots `main` starts with: a head and nine followers at the origin. */
  function Start(): seq<Knot> {
    seq(10, _ => Knot(0, 0, [(0, 0)]))
  }

  /**
    One line of `main`'s loop: `line.split()`, then `int()` of the count,
    then `move`, which refuses an unknown letter. A negative count would make
    `move_using_coordinates` walk away from its target forever.
   */
  function StepLine(ks: seq<Knot>, line: string): (r: Result<seq<Knot>, PositionError>)
    requires |ks| >= 1
    ensures r.Ok? ==> |r.value| == |ks|
    ensures r.Ok? <==>
      (|SplitWs(line)| >= 2 && ParseInt(SplitWs(line)[1]).Some? &&
       Offset(SplitWs(line)[0]).Some? && ParseInt(SplitWs(line)[1]).value >= 0)
  {
    var components := SplitWs(line);
    if |components| < 2 then Err(MissingField)
    else match ParseInt(components[1])
      case None => Err(BadStep)
      case Some(count) =>
        if Offset(components[0]).None? then Err(InvalidDirection)
        else if count < 0 then Err(Diverges)
        else Ok(AfterMove(ks, 0, Offset(components[0]).value, count))
  }

  /** The lines in order, stopping at the first that fails. */
  function RunLines(ks: seq<Knot>, lines: seq<string>): (r: Result<seq<Knot>, PositionError>)
    requires |ks| >= 1
    ensures r.Ok? ==> |r.value| == |ks|
    decreases |lines|
  {
    if lines == [] then Ok(ks)
    else match RunLines(ks, lines[..|lines| - 1])
      case Err(e) => Err(e)
      case Ok(ks1) => StepLine(ks1, lines[|lines| - 1])
  }

  /** Once a line has failed, the run ends with its error. */
  lemma {:induction false} RunLinesStops(ks: seq<Knot>, lines: seq<string>, m: nat)
    requires |ks| >= 1 && m <= |lines| && RunLines(ks, lines[..m]).Err?
    ensures RunLines(ks, lines) == RunLines(ks, lines[..m])
    decreases |lines|
  {
    if m < |lines| {
      var init := lines[..|lines| - 1];
      assert init[..m] == lines[..m];
      RunLinesStops(ks, init, m);
    } else {
      assert lines[..m] == lines;
    }
  }

  /**
    Whatever the input, the rope stays connected: every knot touches the
    knot it follows. Every visited list only grows and never repeats a cell,
    so the answers count distinct cells.
   */
  lemma {:induction false} RunLinesKeepsRope(ks: seq<Knot>, lines: seq<string>)
    requires |ks| >= 1 && TouchingFrom(ks, 0) && AllNoDup(ks)
    ensures var r := RunLines(ks, lines);
      r.Ok? ==> TouchingFrom(r.value, 0) && AllNoDup(r.value) && GrewFrom(ks, r.value, 0)
    decreases |lines|
  {
    if lines != [] {
      var init := lines[..|lines| - 1];
      RunLinesKeepsRope(ks, init);
      var prev := RunLines(ks, init);
      if prev.Ok? && StepLine(prev.value, lines[|lines| - 1]).Ok? {
        var components := SplitWs(lines[|lines| - 1]);
        var d := Offset(components[0]).value;
        var count: nat := ParseInt(components[1]).value;
        MoveFrame(prev.value, 0, d, count);
        MoveChain(prev.value, 0, d, count);
        var r := AfterMove(prev.value, 0, d, count);
        forall j | 0 <= j < |r| ensures ks[j].visited <= r[j].visited {
          assert ks[j].visited <= prev.value[j].visited <= r[j].visited;
        }
      }
    }
  }

  /** The two answers of a run, or the error of the line that stopped it. */
  function Answers(run: Result<seq<Knot>, PositionError>): Result<(nat, nat), PositionError>
    requires run.Ok? ==> |run.value| == 10
  {
    match run
    case Ok(ks) => Ok((|ks[1].visited|, |ks[9].visited|))
    case Err(e) => Err(e)
  }

  /** The first loop of `main`: `P0` at the origin, then `P1` to `P9`, each linked to the one before. */
  method NewRope() returns (rope: Rope)
    ensures fresh(rope) && rope.Valid() && rope.knots == Start() && TouchingFrom(rope.knots, 0)
  {
    rope := new Rope(0, 0);
    var i := 0;
    while i < 9
      invariant 0 <= i <= 9 && rope.Valid()
      invariant rope.knots == seq(i + 1, _ => Knot(0, 0, [(0, 0)]))
    {
      var _ := rope.CreateLinked(i);
      i := i + 1;
    }
  }

  /** The body of the second loop of `main`, as `StepLine` describes it. */
  method RunLine(rope: Rope, line: string) returns (r: Result<(), PositionError>)
    requires rope.Valid() && TouchingFrom(rope.knots, 0)
    modifies rope
    ensures rope.Valid() && |rope.knots| == |old(rope.knots)| && TouchingFrom(rope.knots, 0)
    ensures r.Ok? ==> StepLine(old(rope.knots), line) == Ok(rope.knots)
    ensures r.Err? ==> StepLine(old(rope.knots), line) == Err(r.error)
  {
    var components := SplitWs(line);
    if |components| < 2 {
      return Err(MissingField);
    }
    var count := ParseInt(components[1]);
    if count.None? {
      return Err(BadStep);
    }
    if Offset(components[0]).None? {
      return Err(InvalidDirection);
    }
    if count.value < 0 {
      return Err(Diverges);
    }
    r := rope.Move(components[0], count.value);
  }

  /**
    The second loop of `main`: a head and nine followers at the origin, then one
    `move` per line `"<letter> <count>"`. The answers are the numbers of
    cells the first follower and the last knot have visited.
   */
  method Simulate(lines: seq<string>) returns (r: Result<(nat, nat), PositionError>, rope: Rope)
    ensures fresh(rope) && rope.Valid() && |rope.knots| == 10
    ensures TouchingFrom(rope.knots, 0)
    ensures r == Answers(RunLines(Start(), lines))
    ensures r.Ok? ==> RunLines(Start(), lines) == Ok(rope.knots)
  {
    rope := NewRope();
    var l := 0;
    while l < |lines|
      invariant l <= |lines|
      invariant rope.Valid() && |rope.knots| == 10 && TouchingFrom(rope.knots, 0)
      invariant RunLines(Start(), lines[..l]) == Ok(rope.knots)
    {
      assert lines[..l + 1][..l] == lines[..l];
      var step := RunLine(rope, lines[l]);
      if step.Err? {
        RunLinesStops(Start(), lines, l + 1);
        return Err(step.error), rope;
      }
      l := l + 1;
    }
    assert lines[..l] == lines;
    return Ok((|rope.knots[1].visited|, |rope.knots[9].visited|)), rope;
  }
}
