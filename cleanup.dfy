/**
 * Camp cleanup (day4.py).
 *
 * Every input line holds two section assignments written `a-b,c-d`.  The
 * script parses all lines, then walks the pairs in order and appends each
 * one to `fully_covered` when one assignment lies within the other, and to
 * `over_lapped` when the two share a section.  The comparisons are Python
 * chained comparisons, evaluated left to right with short-circuiting, so
 * an assignment with too few bounds raises IndexError exactly where the
 * script would.
 */
module Cleanup {
  import opened Common
  import opened PyStr

  /** The exceptions the script can raise. */
  datatype Error = ValueError | IndexError

  /** One parsed line: its assignments, each a list of integers. */
  type Pair = seq<seq<int>>

  // ---------------------------------------------------------------------
  // Parsing: [list(map(int, a.split('-'))) for a in line.rstrip().split(',')]

  /** `int(piece)`. */
  function Int(piece: string): (r: Result<int, Error>)
    ensures r.Ok? <==> ParseInt(piece).Some?
    ensures r.Ok? ==> r.value == ParseInt(piece).value
    ensures r.Err? ==> r.error == ValueError
  {
    IntOr(piece, ValueError)
  }

  /** Every piece is an integer as `int()` reads it. */
  predicate AllInts(pieces: seq<string>) {
    forall i :: 0 <= i < |pieces| ==> ParseInt(pieces[i]).Some?
  }

  /** Converting the pieces succeeds iff each is an integer, and gives those integers; otherwise ValueError. */
  lemma IntsOf(pieces: seq<string>)
    ensures var r := MapAll(pieces, Int);
      && (r.Ok? <==> AllInts(pieces))
      && (r.Ok? ==> |r.value| == |pieces| && forall i :: 0 <= i < |pieces| ==> ParseInt(pieces[i]) == Some(r.value[i]))
      && (r.Err? ==> r.error == ValueError)
  {
    var r := MapAll(pieces, Int);
    assert forall i :: 0 <= i < |pieces| ==> (Int(pieces[i]).Ok? <==> ParseInt(pieces[i]).Some?);
    if r.Ok? {
      forall i | 0 <= i < |pieces| ensures ParseInt(pieces[i]) == Some(r.value[i]) {
        assert Int(pieces[i]) == Ok(r.value[i]);
      }
    } else {
      var i :| 0 <= i < |pieces| && Int(pieces[i]) == Err(r.error);
    }
  }

  /** `list(map(int, assignment.split('-')))`. */
  function ParseAssignment(assignment: string): (r: Result<seq<int>, Error>)
    ensures var pieces := Split(assignment, "-");
      && (r.Ok? <==> AllInts(pieces))
      && (r.Ok? ==> |r.value| == |pieces| && forall i :: 0 <= i < |pieces| ==> ParseInt(pieces[i]) == Some(r.value[i]))
    ensures r.Err? ==> r.error == ValueError
  {
    var pieces := Split(assignment, "-");
    IntsOf(pieces);
    MapAll(pieces, Int)
  }

  /** One line of the file, without its trailing whitespace, split at ','. */
  function ParseLine(line: string): (r: Result<Pair, Error>)
    ensures var parts := Split(RStrip(line), ",");
      && (r.Ok? <==> forall i :: 0 <= i < |parts| ==> ParseAssignment(parts[i]).Ok?)
      && (r.Ok? ==> |r.value| == |parts| >= 1 && forall i :: 0 <= i < |parts| ==> ParseAssignment(parts[i]) == Ok(r.value[i]))
    ensures r.Err? ==> r.error == ValueError
  {
    var parts := Split(RStrip(line), ",");
    var r := MapAll(parts, ParseAssignment);
    assert r.Err? ==> r.error == ValueError by {
      if r.Err? {
        var i :| 0 <= i < |parts| && ParseAssignment(parts[i]) == Err(r.error);
      }
    }
    r
  }

  /** All lines of the input file, in order; the first bad line raises. */
  function ParseData(lines: seq<string>): (r: Result<seq<Pair>, Error>)
    ensures r.Ok? <==> forall i :: 0 <= i < |lines| ==> ParseLine(lines[i]).Ok?
    ensures r.Ok? ==> |r.value| == |lines| && forall i :: 0 <= i < |lines| ==> ParseLine(lines[i]) == Ok(r.value[i])
    ensures r.Err? ==> r.error == ValueError && exists i :: 0 <= i < |lines| && ParseLine(lines[i]).Err?
  {
    MapAll(lines, ParseLine)
  }

  /** The text `a-b,c-d` for natural bounds. */
  function PairText(a: nat, b: nat, c: nat, d: nat): string {
    NatToString(a) + "-" + NatToString(b) + "," + NatToString(c) + "-" + NatToString(d)
  }

  /** `x-y` splits at the dash and converts back to `[x, y]`. */
  lemma AssignmentOf(x: nat, y: nat)
    ensures ParseAssignment(NatToString(x) + "-" + NatToString(y)) == Ok([x, y])
  {
    var p, q := NatToString(x), NatToString(y);
    DigitsExclude(p, '-');
    DigitsExclude(q, '-');
    SplitTwo(p, '-', q);
    ParseIntOfNatToString(x);
    ParseIntOfNatToString(y);
    assert Split(p + "-" + q, "-") == [p, q];
    MapTwo(p, q, Int, x, y);
  }

  /** A line `a-b,c-d` read from the file, newline included, parses to `[[a, b], [c, d]]`. */
  lemma ParseLineOf(a: nat, b: nat, c: nat, d: nat)
    ensures ParseLine(PairText(a, b, c, d) + "\n") == Ok([[a, b], [c, d]])
  {
    var x := NatToString(a) + "-" + NatToString(b);
    var y := NatToString(c) + "-" + NatToString(d);
    var t := PairText(a, b, c, d);
    assert t == x + "," + y;
    RStripNewline(t);
    NoComma(a, b);
    NoComma(c, d);
    SplitTwo(x, ',', y);
    AssignmentOf(a, b);
    AssignmentOf(c, d);
    assert Split(RStrip(t + "\n"), ",") == [x, y];
    MapTwo(x, y, ParseAssignment, [a, b], [c, d]);
  }

  lemma NoComma(x: nat, y: nat)
    ensures ',' !in NatToString(x) + "-" + NatToString(y)
  {
    DigitsExclude(NatToString(x), ',');
    DigitsExclude(NatToString(y), ',');
  }

  // ---------------------------------------------------------------------
  // Python evaluation of the comparisons

  /** `xs[i]`, or IndexError. */
  function At(xs: seq<int>, i: nat): (r: Result<int, Error>)
    ensures r.Ok? <==> i < |xs|
    ensures r.Ok? ==> r.value == xs[i]
    ensures r.Err? ==> r.error == IndexError
  {
    if i < |xs| then Ok(xs[i]) else Err(IndexError)
  }

  /** `x <= y <= z`: the operands left to right, and `z` only when `x <= y` holds. */
  function ChainLe(x: Result<int, Error>, y: Result<int, Error>, z: Result<int, Error>): Result<bool, Error> {
    if x.Err? then Err(x.error)
    else if y.Err? then Err(y.error)
    else if !(x.value <= y.value) then Ok(false)
    else if z.Err? then Err(z.error)
    else Ok(y.value <= z.value)
  }

  /** `x >= y >= z`, evaluated the same way. */
  function ChainGe(x: Result<int, Error>, y: Result<int, Error>, z: Result<int, Error>): Result<bool, Error> {
    if x.Err? then Err(x.error)
    else if y.Err? then Err(y.error)
    else if !(x.value >= y.value) then Ok(false)
    else if z.Err? then Err(z.error)
    else Ok(y.value >= z.value)
  }

  /** `p and q`: `q` only when `p` is true. */
  function And(p: Result<bool, Error>, q: Result<bool, Error>): Result<bool, Error> {
    if p.Err? || !p.value then p else q
  }

  /** `p or q`: `q` only when `p` is false. */
  function Or(p: Result<bool, Error>, q: Result<bool, Error>): Result<bool, Error> {
    if p.Err? || p.value then p else q
  }

  // ---------------------------------------------------------------------
  // Classification of one pair

  /** Which lists the loop appends a pair to. */
  datatype Kind =
    | Contained   // fully_covered and over_lapped
    | Overlapping // over_lapped only
    | Apart       // neither

  /** `b[0] <= a[0] <= b[1] and b[1] >= a[1] >= b[0]`, the script's containment test. */
  function Within(a: seq<int>, b: seq<int>): (r: Result<bool, Error>)
    ensures r.Err? ==> r.error == IndexError
    ensures r.Err? <==> |b| < 1 || |a| < 1 || (b[0] <= a[0] && (|b| < 2 || (a[0] <= b[1] && |a| < 2)))
    ensures |a| >= 2 && |b| >= 2 ==> r == Ok(b[0] <= a[0] <= b[1] && b[0] <= a[1] <= b[1])
  {
    And(ChainLe(At(b, 0), At(a, 0), At(b, 1)), ChainGe(At(b, 1), At(a, 1), At(b, 0)))
  }

  /** `b[0] <= a[1] <= b[1]`: the end of `a` lies in `b`. */
  function EndIn(a: seq<int>, b: seq<int>): Result<bool, Error> {
    ChainLe(At(b, 0), At(a, 1), At(b, 1))
  }

  /** The if/elif/elif chain of the loop body. */
  function Classify(a1: seq<int>, a2: seq<int>): (r: Result<Kind, Error>)
    ensures r.Err? ==> r.error == IndexError
    ensures r.Err? <==> |a1| < 2 || |a2| < 2
  {
    var first := Within(a1, a2);
    if first.Err? then Err(first.error)
    else if first.value then Ok(Contained)
    else
      var second := Within(a2, a1);
      if second.Err? then Err(second.error)
      else if second.value then Ok(Contained)
      else
        var third := Or(EndIn(a1, a2), EndIn(a2, a1));
        if third.Err? then Err(third.error)
        else if third.value then Ok(Overlapping)
        else Ok(Apart)
  }

  /** `assignment1, assignment2 = pair`, then the classification. */
  function ClassifyPair(pair: Pair): Result<Kind, Error> {
    if |pair| != 2 then Err(ValueError) else Classify(pair[0], pair[1])
  }

  /** Section `x` belongs to assignment `a`. */
  predicate Covers(a: seq<int>, x: int)
    requires |a| >= 2
  {
    a[0] <= x <= a[1]
  }

  /** Every section of `a` is a section of `b`. */
  ghost predicate Includes(b: seq<int>, a: seq<int>)
    requires |a| >= 2 && |b| >= 2
  {
    forall x :: Covers(a, x) ==> Covers(b, x)
  }

  /** Some section belongs to both. */
  ghost predicate Share(a: seq<int>, b: seq<int>)
    requires |a| >= 2 && |b| >= 2
  {
    exists x :: Covers(a, x) && Covers(b, x)
  }

  predicate WellFormed(a: seq<int>) {
    |a| >= 2 && a[0] <= a[1]
  }

  /** For a well-formed `a` the first test holds iff `b` includes the sections of `a`. */
  lemma WithinMeansIncludes(a: seq<int>, b: seq<int>)
    requires WellFormed(a) && |b| >= 2
    ensures Within(a, b) == Ok(Includes(b, a))
  {
    if Includes(b, a) {
      assert Covers(a, a[0]) && Covers(a, a[1]);
    }
  }

  /**
   * A pair lands in `fully_covered` iff one assignment lies within the
   * other, and in `over_lapped` iff, in addition, the two ends interleave.
   */
  lemma ClassifyCases(a1: seq<int>, a2: seq<int>)
    requires |a1| >= 2 && |a2| >= 2
    ensures var within1 := a2[0] <= a1[0] <= a2[1] && a2[0] <= a1[1] <= a2[1];
      var within2 := a1[0] <= a2[0] <= a1[1] && a1[0] <= a2[1] <= a1[1];
      var ends := a2[0] <= a1[1] <= a2[1] || a1[0] <= a2[1] <= a1[1];
      && (Classify(a1, a2) == Ok(Contained) <==> within1 || within2)
      && (Classify(a1, a2) == Ok(Overlapping) <==> !within1 && !within2 && ends)
      && (Classify(a1, a2) == Ok(Apart) <==> !within1 && !within2 && !ends)
  {
  }

  /**
   * For well-formed assignments the classification means what its names
   * say: contained iff one section set includes the other, and not apart
   * iff the two share a section.
   */
  lemma ClassifyMeaning(a1: seq<int>, a2: seq<int>)
    requires WellFormed(a1) && WellFormed(a2)
    ensures Classify(a1, a2) == Ok(Contained) <==> Includes(a2, a1) || Includes(a1, a2)
    ensures Classify(a1, a2) != Ok(Apart) <==> Share(a1, a2)
    ensures Classify(a1, a2).Ok?
  {
    WithinMeansIncludes(a1, a2);
    WithinMeansIncludes(a2, a1);
    ClassifyCases(a1, a2);
    var lo := if a1[0] < a2[0] then a2[0] else a1[0];
    if lo <= a1[1] && lo <= a2[1] {
      assert Covers(a1, lo) && Covers(a2, lo);
    }
  }

  // ---------------------------------------------------------------------
  // The loop over all pairs

  /** The pairs of `data` whose classification is `Ok(k)` for some `k` in `kinds`, in order. */
  function Keep(data: seq<Pair>, kinds: set<Kind>): (r: seq<Pair>)
    ensures |r| <= |data|
  {
    if data == [] then []
    else
      var rest := Keep(data[1..], kinds);
      if ClassifyPair(data[0]).Ok? && ClassifyPair(data[0]).value in kinds then [data[0]] + rest else rest
  }

  /** A pair is kept iff it is in the input and classified as one of `kinds`. */
  lemma {:induction false} KeepMembers(data: seq<Pair>, kinds: set<Kind>)
    ensures forall p :: p in Keep(data, kinds) <==> p in data && ClassifyPair(p).Ok? && ClassifyPair(p).value in kinds
  {
    if data != [] {
      KeepMembers(data[1..], kinds);
      assert data == [data[0]] + data[1..];
    }
  }

  /** What `fully_covered` holds after the loop. */
  function FullyCovered(data: seq<Pair>): (r: seq<Pair>)
    ensures forall p :: p in r <==> p in data && ClassifyPair(p) == Ok(Contained)
  {
    KeepMembers(data, {Contained});
    Keep(data, {Contained})
  }

  /** What `over_lapped` holds after the loop. */
  function OverLapped(data: seq<Pair>): (r: seq<Pair>)
    ensures forall p :: p in r <==> p in data && ClassifyPair(p).Ok? && ClassifyPair(p).value != Apart
  {
    KeepMembers(data, {Contained, Overlapping});
    Keep(data, {Contained, Overlapping})
  }

  /** What is kept before position `i`, followed by `data[i]` when its kind is kept, is what is kept before `i + 1`. */
  lemma KeepStep(data: seq<Pair>, i: nat, kinds: set<Kind>, acc: seq<Pair>)
    requires i < |data| && ClassifyPair(data[i]).Ok?
    requires acc + Keep(data[i..], kinds) == Keep(data, kinds)
    ensures (if ClassifyPair(data[i]).value in kinds then acc + [data[i]] else acc) + Keep(data[i + 1..], kinds)
            == Keep(data, kinds)
  {
    assert data[i..][1..] == data[i + 1..];
    if ClassifyPair(data[i]).value in kinds {
      assert acc + Keep(data[i..], kinds) == (acc + [data[i]]) + Keep(data[i + 1..], kinds);
    }
  }

  /** The loop of day4.py:13-24; the first pair that raises ends it. */
  method Survey(data: seq<Pair>) returns (r: Result<(seq<Pair>, seq<Pair>), Error>)
    ensures r.Ok? <==> forall i :: 0 <= i < |data| ==> ClassifyPair(data[i]).Ok?
    ensures r.Ok? ==> r.value == (FullyCovered(data), OverLapped(data))
    ensures r.Err? ==> exists i :: 0 <= i < |data| && ClassifyPair(data[i]) == Err(r.error) &&
                              forall j :: 0 <= j < i ==> ClassifyPair(data[j]).Ok?
  {
    var fully: seq<Pair> := [];
    var over: seq<Pair> := [];
    var i := 0;
    while i < |data|
      invariant 0 <= i <= |data|
      invariant forall j :: 0 <= j < i ==> ClassifyPair(data[j]).Ok?
      invariant fully + Keep(data[i..], {Contained}) == Keep(data, {Contained})
      invariant over + Keep(data[i..], {Contained, Overlapping}) == Keep(data, {Contained, Overlapping})
    {
      var pair := data[i];
      var kind := ClassifyPair(pair);
      if kind.Err? {
        return Err(kind.error);
      }
      KeepStep(data, i, {Contained}, fully);
      KeepStep(data, i, {Contained, Overlapping}, over);
      if kind.value == Contained {
        fully := fully + [pair];
        over := over + [pair];
      } else if kind.value == Overlapping {
        over := over + [pair];
      }
      i := i + 1;
    }
    assert data[i..] == [];
    assert fully == Keep(data, {Contained}) && over == Keep(data, {Contained, Overlapping});
    return Ok((fully, over));
  }

  // ---------------------------------------------------------------------
  // The two lists against each other and against the input

  /** `a` is `b` with some elements dropped, the rest in their order. */
  predicate Subsequence(a: seq<Pair>, b: seq<Pair>)
    decreases |b|
  {
    if a == [] then true
    else if b == [] then false
    else if a[0] == b[0] then Subsequence(a[1..], b[1..])
    else Subsequence(a, b[1..])
  }

  lemma {:induction false} SubsequenceBounds(a: seq<Pair>, b: seq<Pair>)
    requires Subsequence(a, b)
    ensures |a| <= |b| && multiset(a) <= multiset(b)
    decreases |b|
  {
    if a != [] {
      if a[0] == b[0] {
        SubsequenceBounds(a[1..], b[1..]);
        assert a == [a[0]] + a[1..] && b == [b[0]] + b[1..];
      } else {
        SubsequenceBounds(a, b[1..]);
        assert b == [b[0]] + b[1..];
      }
    }
  }

  /** Keeping fewer kinds keeps a subsequence of what more kinds keep. */
  lemma {:induction false} KeepNarrower(data: seq<Pair>, small: set<Kind>, large: set<Kind>)
    requires small <= large
    ensures Subsequence(Keep(data, small), Keep(data, large))
  {
    if data != [] {
      KeepNarrower(data[1..], small, large);
      var k := ClassifyPair(data[0]);
      if k.Ok? && k.value in small {
        assert Keep(data, small)[1..] == Keep(data[1..], small);
      } else if k.Ok? && k.value in large {
        KeptSkip(Keep(data, small), data[0], Keep(data[1..], large));
      }
    }
  }

  /** A subsequence of `b` is one of `x` followed by `b`. */
  lemma {:induction false} KeptSkip(a: seq<Pair>, x: Pair, b: seq<Pair>)
    requires Subsequence(a, b)
    ensures Subsequence(a, [x] + b)
    decreases |b|, 1
  {
    assert ([x] + b)[1..] == b;
    if a != [] && a[0] == x {
      SubsequenceTail(a, b);
    }
  }

  /** Dropping the first element of a subsequence leaves a subsequence. */
  lemma {:induction false} SubsequenceTail(a: seq<Pair>, b: seq<Pair>)
    requires a != [] && Subsequence(a, b)
    ensures Subsequence(a[1..], b)
    decreases |b|, 0
  {
    if a[0] == b[0] {
      KeptSkip(a[1..], b[0], b[1..]);
    } else {
      SubsequenceTail(a, b[1..]);
      KeptSkip(a[1..], b[0], b[1..]);
    }
    assert [b[0]] + b[1..] == b;
  }

  /** Every kind kept is a subsequence of the input. */
  lemma {:induction false} KeepOfInput(data: seq<Pair>, kinds: set<Kind>)
    ensures Subsequence(Keep(data, kinds), data)
  {
    if data != [] {
      KeepOfInput(data[1..], kinds);
      var k := ClassifyPair(data[0]);
      if k.Ok? && k.value in kinds {
        assert Keep(data, kinds)[1..] == Keep(data[1..], kinds);
      } else {
        KeptSkip(Keep(data, kinds), data[0], data[1..]);
        assert data == [data[0]] + data[1..];
      }
    }
  }

  /**
   * `fully_covered` is a subsequence of `over_lapped`, which is one of the
   * input: both keep input order, no pair appears more often than in the
   * input, and the first printed count never exceeds the second.
   */
  lemma CoveredWithinOverlapped(data: seq<Pair>)
    ensures Subsequence(FullyCovered(data), OverLapped(data))
    ensures Subsequence(OverLapped(data), data)
    ensures |FullyCovered(data)| <= |OverLapped(data)|
    ensures multiset(FullyCovered(data)) <= multiset(OverLapped(data)) <= multiset(data)
  {
    KeepNarrower(data, {Contained}, {Contained, Overlapping});
    KeepOfInput(data, {Contained, Overlapping});
    SubsequenceBounds(FullyCovered(data), OverLapped(data));
    SubsequenceBounds(OverLapped(data), data);
  }
}
