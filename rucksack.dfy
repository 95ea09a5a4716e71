/**
 * Rucksack reorganisation (day3.py).
 *
 * Each stripped input line is one rucksack: its two halves are the
 * compartments, and the characters found in both are the packing errors.
 * Every three consecutive lines form a group whose badge is a character the
 * three rucksacks share.  The script walks the lines once, appending a
 * record per rucksack and one per completed group, and then sums the
 * priorities of the errors and of the badges.
 *
 * Python iterates a set in an order the language leaves open, and `pop`
 * takes an element of its choosing; the model makes both choices
 * nondeterministically and proves that the totals do not depend on them.
 */
module Rucksack {
  import opened Common
  import opened PyStr

  /** The exceptions the loop can raise. */
  datatype Error =
    | OddLength   // Exception("Odd number of characters")
    | EmptyBadge  // KeyError: pop from an empty set

  /** `rucksacks` entries: the line, its halves, the errors and their priorities. */
  datatype Sack = Sack(s: string, c1: string, c2: string, errors: seq<char>, priorities: seq<int>)

  /** `groups` entries: the group number, its badge and the badge's priority. */
  datatype Group = Group(groupNo: nat, badge: char, badgeNo: int)

  const OffsetUpper: int := 'A' as int - 27
  const OffsetLower: int := 'a' as int - 1

  /** `str.islower()` on one character, for ASCII. */
  predicate IsLower(c: char) {
    'a' <= c <= 'z'
  }

  /** The priority of an item: `ord(c)` less the offset of its case. */
  function Priority(c: char): int {
    c as int - (if IsLower(c) then OffsetLower else OffsetUpper)
  }

  /** Lower-case letters have priorities 1 to 26 and upper-case letters 27 to 52, in alphabetical order. */
  lemma PriorityOfLetters(c: char)
    ensures 'a' <= c <= 'z' ==> Priority(c) == (c as int - 'a' as int) + 1 && 1 <= Priority(c) <= 26
    ensures 'A' <= c <= 'Z' ==> Priority(c) == (c as int - 'A' as int) + 27 && 27 <= Priority(c) <= 52
  {
  }

  predicate IsLetter(c: char) {
    'a' <= c <= 'z' || 'A' <= c <= 'Z'
  }

  /** Distinct letters have distinct priorities. */
  lemma PriorityInjective(c: char, d: char)
    requires IsLetter(c) && IsLetter(d) && Priority(c) == Priority(d)
    ensures c == d
  {
    PriorityOfLetters(c);
    PriorityOfLetters(d);
  }

  // ---------------------------------------------------------------------
  // Sets of characters

  /** `set(s)`. */
  function CharSet(s: string): set<char> {
    set c | c in s
  }

  predicate NoDup(xs: seq<char>) {
    forall i, j :: 0 <= i < j < |xs| ==> xs[i] != xs[j]
  }

  /** `list(S)`: the elements of `S`, each once, in an order the model leaves open. */
  method ListOf(S: set<char>) returns (xs: seq<char>)
    ensures NoDup(xs) && CharSet(xs) == S
  {
    xs := [];
    var rest := S;
    while rest != {}
      invariant NoDup(xs) && CharSet(xs) + rest == S && CharSet(xs) * rest == {}
      decreases |rest|
    {
      var x :| x in rest;
      assert CharSet(xs + [x]) == CharSet(xs) + {x};
      xs := xs + [x];
      rest := rest - {x};
    }
  }

  // ---------------------------------------------------------------------
  // One rucksack

  /** What the loop records for the stripped line `line`. */
  ghost predicate Packed(line: string, sack: Sack) {
    && |line| % 2 == 0
    && sack.s == line
    && sack.c1 == line[..|line| / 2]
    && sack.c2 == line[|line| / 2..]
    && NoDup(sack.errors)
    && CharSet(sack.errors) == CharSet(sack.c1) * CharSet(sack.c2)
    && |sack.priorities| == |sack.errors|
    && (forall j :: 0 <= j < |sack.errors| ==> sack.priorities[j] == Priority(sack.errors[j]))
  }

  /** The body of the loop up to the record, for a line already stripped. */
  method Pack(line: string) returns (r: Result<Sack, Error>)
    ensures r.Err? <==> |line| % 2 == 1
    ensures r.Err? ==> r.error == OddLength
    ensures r.Ok? ==> Packed(line, r.value)
  {
    var charCount := |line|;
    var mid := charCount / 2;
    if charCount % 2 == 1 {
      return Err(OddLength);
    }
    var errorSet := CharSet(line[..mid]) * CharSet(line[mid..]);
    var errors := ListOf(errorSet);
    var priorities := seq(|errors|, j requires 0 <= j < |errors| => Priority(errors[j]));
    return Ok(Sack(line, line[..mid], line[mid..], errors, priorities));
  }

  /** The compartments of a recorded rucksack are equal halves that make up the line. */
  lemma Halves(line: string, sack: Sack)
    requires Packed(line, sack)
    ensures sack.c1 + sack.c2 == sack.s && |sack.c1| == |sack.c2|
  {
    assert line == line[..|line| / 2] + line[|line| / 2..];
  }

  // ---------------------------------------------------------------------
  // Groups of three

  /** The characters the three lines of group `g` share. */
  function Shared(lines: seq<string>, g: nat): set<char>
    requires 3 * g + 2 < |lines|
  {
    CharSet(Strip(lines[3 * g])) * CharSet(Strip(lines[3 * g + 1])) * CharSet(Strip(lines[3 * g + 2]))
  }

  /** What the loop records for group `g`. */
  ghost predicate Badged(lines: seq<string>, g: nat, group: Group)
    requires 3 * g + 2 < |lines|
  {
    group.groupNo == g + 1 && group.badge in Shared(lines, g) && group.badgeNo == Priority(group.badge)
  }

  /** Line `i` raises: odd length, or it closes a group with nothing in common. */
  predicate Fault(lines: seq<string>, i: nat)
    requires i < |lines|
  {
    |Strip(lines[i])| % 2 == 1 || (i % 3 == 2 && Shared(lines, i / 3) == {})
  }

  function FaultKind(lines: seq<string>, i: nat): Error
    requires i < |lines|
  {
    if |Strip(lines[i])| % 2 == 1 then OddLength else EmptyBadge
  }

  /** Line number `n` is line `n - 1 - 3 * k` of group `k`. */
  lemma Phase(n: int, k: nat)
    requires 3 * k + 1 <= n <= 3 * k + 3
    ensures n % 3 == 1 <==> n == 3 * k + 1
    ensures n % 3 == 2 <==> n == 3 * k + 2
    ensures n % 3 == 0 <==> n == 3 * k + 3
    ensures n % 3 == 0 ==> n / 3 == k + 1 && (n - 1) % 3 == 2 && (n - 1) / 3 == k
  {
  }

  /** The running intersection of a group's first two lines, met with its third, is what the group shares. */
  lemma SharedSoFar(lines: seq<string>, g: nat, running: set<char>)
    requires 3 * g + 2 < |lines|
    requires running == CharSet(Strip(lines[3 * g])) * CharSet(Strip(lines[3 * g + 1]))
    ensures running * CharSet(Strip(lines[3 * g + 2])) == Shared(lines, g)
  {
  }

  /**
   * The group state after the first `n` lines: every finished group recorded, and `running`
   * the intersection of the lines read so far of the group not yet finished.
   */
  ghost predicate Grouped(lines: seq<string>, n: nat, groups: seq<Group>, running: set<char>) {
    && n <= |lines|
    && 3 * |groups| <= n <= 3 * |groups| + 2
    && (forall g :: 0 <= g < |groups| ==> Badged(lines, g, groups[g]))
    && (n == 3 * |groups| + 1 ==> running == CharSet(Strip(lines[3 * |groups|])))
    && (n == 3 * |groups| + 2 ==> running == CharSet(Strip(lines[3 * |groups|])) * CharSet(Strip(lines[3 * |groups| + 1])))
  }

  /**
   * The `line_no % 3` branches of the loop for line number `lineNo` (stripped to `line`):
   * start the running set, narrow it, or pop a character common to the whole group.
   */
  method Regroup(lines: seq<string>, lineNo: nat, line: string, groups: seq<Group>, running: set<char>)
    returns (r: Result<(seq<Group>, set<char>), Error>)
    requires 1 <= lineNo <= |lines| && line == Strip(lines[lineNo - 1])
    requires Grouped(lines, lineNo - 1, groups, running)
    ensures r.Err? <==> lineNo == 3 * |groups| + 3 && Shared(lines, |groups|) == {}
    ensures r.Err? ==> r.error == EmptyBadge
    ensures r.Ok? ==> Grouped(lines, lineNo, r.value.0, r.value.1)
  {
    Phase(lineNo, |groups|);
    if lineNo % 3 == 0 {
      SharedSoFar(lines, |groups|, running);
      var common := running * CharSet(line);
      if common == {} {
        return Err(EmptyBadge);
      }
      var badge :| badge in common;
      var group := Group(lineNo / 3, badge, Priority(badge));
      assert Badged(lines, |groups|, group);
      return Ok((groups + [group], running));
    } else if lineNo % 3 == 1 {
      return Ok((groups, CharSet(line)));
    } else {
      return Ok((groups, running * CharSet(line)));
    }
  }

  /** No line before `n` raises once its rucksack and every finished group are recorded. */
  lemma NoFaultBefore(lines: seq<string>, n: nat, sacks: seq<Sack>, groups: seq<Group>)
    requires n <= |lines| && n <= |sacks| && 3 * |groups| <= n <= 3 * |groups| + 2
    requires forall i :: 0 <= i < n ==> Packed(Strip(lines[i]), sacks[i])
    requires forall g :: 0 <= g < |groups| ==> Badged(lines, g, groups[g])
    ensures forall i :: 0 <= i < n ==> !Fault(lines, i)
    ensures |groups| == n / 3
  {
    forall i | 0 <= i < n
      ensures !Fault(lines, i)
    {
      assert Packed(Strip(lines[i]), sacks[i]);
      if i % 3 == 2 {
        assert i / 3 < |groups|;
        assert Badged(lines, i / 3, groups[i / 3]);
      }
    }
  }

  /** Line `n` is the first to raise, once every earlier line is recorded. */
  lemma FirstFault(lines: seq<string>, n: nat, sacks: seq<Sack>, groups: seq<Group>, e: Error)
    requires n < |lines| && n <= |sacks| && 3 * |groups| <= n <= 3 * |groups| + 2
    requires forall i :: 0 <= i < n ==> Packed(Strip(lines[i]), sacks[i])
    requires forall g :: 0 <= g < |groups| ==> Badged(lines, g, groups[g])
    requires Fault(lines, n) && e == FaultKind(lines, n)
    ensures exists i :: 0 <= i < |lines| && Fault(lines, i) && e == FaultKind(lines, i) &&
                        forall j :: 0 <= j < i ==> !Fault(lines, j)
  {
    NoFaultBefore(lines, n, sacks, groups);
  }

  /** A group whose three lines share nothing raises `EmptyBadge` at its third line. */
  lemma EmptyBadgeFault(lines: seq<string>, g: nat)
    requires 3 * g + 2 < |lines| && |Strip(lines[3 * g + 2])| % 2 == 0 && Shared(lines, g) == {}
    ensures Fault(lines, 3 * g + 2) && FaultKind(lines, 3 * g + 2) == EmptyBadge
  {
    assert (3 * g + 2) % 3 == 2 && (3 * g + 2) / 3 == g;
  }

  /** The loop of day3.py:12-55 over the lines of the file. */
  method Survey(lines: seq<string>) returns (r: Result<(seq<Sack>, seq<Group>), Error>)
    ensures r.Ok? <==> forall i :: 0 <= i < |lines| ==> !Fault(lines, i)
    ensures r.Ok? ==> |r.value.0| == |lines| && forall i :: 0 <= i < |lines| ==> Packed(Strip(lines[i]), r.value.0[i])
    ensures r.Ok? ==> |r.value.1| == |lines| / 3 && forall g :: 0 <= g < |lines| / 3 ==> Badged(lines, g, r.value.1[g])
    ensures r.Err? ==> exists i :: 0 <= i < |lines| && Fault(lines, i) && r.error == FaultKind(lines, i) &&
                              forall j :: 0 <= j < i ==> !Fault(lines, j)
  {
    var sacks: seq<Sack> := [];
    var groups: seq<Group> := [];
    var groupBadge: set<char> := {};
    var lineNo := 1;
    while lineNo <= |lines|
      invariant 1 <= lineNo <= |lines| + 1
      invariant |sacks| == lineNo - 1 && forall i :: 0 <= i < lineNo - 1 ==> Packed(Strip(lines[i]), sacks[i])
      invariant Grouped(lines, lineNo - 1, groups, groupBadge)
    {
      var line := Strip(lines[lineNo - 1]);
      var sack := Pack(line);
      if sack.Err? {
        FirstFault(lines, lineNo - 1, sacks, groups, sack.error);
        return Err(sack.error);
      }
      sacks := sacks + [sack.value];
      var next := Regroup(lines, lineNo, line, groups, groupBadge);
      if next.Err? {
        EmptyBadgeFault(lines, |groups|);
        FirstFault(lines, lineNo - 1, sacks, groups, next.error);
        return Err(next.error);
      }
      groups, groupBadge := next.value.0, next.value.1;
      lineNo := lineNo + 1;
    }
    NoFaultBefore(lines, |lines|, sacks, groups);
    return Ok((sacks, groups));
  }

  // ---------------------------------------------------------------------
  // The totals

  /** Positive priorities sum to at least one per item. */
  lemma {:induction false} SumPositive(xs: seq<int>)
    requires forall j | 0 <= j < |xs| :: xs[j] > 0
    ensures Sum(xs) >= |xs|
  {
    if xs != [] {
      assert forall j | 0 <= j < |xs[1..]| :: xs[1..][j] == xs[j + 1];
      SumPositive(xs[1..]);
    }
  }

  /** Every recorded priority is positive, as those of letters are. */
  predicate PositivePriorities(sacks: seq<Sack>) {
    forall i | 0 <= i < |sacks| :: forall j | 0 <= j < |sacks[i].priorities| :: sacks[i].priorities[j] > 0
  }

  /**
    `total_errors`: the sum over all rucksacks of their error priorities.
    With positive priorities it is positive exactly when some rucksack has
    an error, and never below the number of rucksacks with one.
   */
  function TotalErrors(sacks: seq<Sack>): (r: int)
    ensures PositivePriorities(sacks) ==> r >= 0
    ensures PositivePriorities(sacks) ==> (r > 0 <==> exists i | 0 <= i < |sacks| :: sacks[i].priorities != [])
  {
    if sacks == [] then 0
    else
      var rest := TotalErrors(sacks[1..]);
      assert PositivePriorities(sacks) ==> PositivePriorities(sacks[1..]) by {
        assert forall i | 0 <= i < |sacks[1..]| :: sacks[1..][i] == sacks[i + 1];
      }
      assert (exists i | 0 <= i < |sacks| :: sacks[i].priorities != []) <==>
        sacks[0].priorities != [] || exists i | 0 <= i < |sacks[1..]| :: sacks[1..][i].priorities != [] by {
        forall i | 1 <= i < |sacks| ensures sacks[i] == sacks[1..][i - 1] { }
      }
      if PositivePriorities(sacks) then
        SumPositive(sacks[0].priorities);
        Sum(sacks[0].priorities) + rest
      else
        Sum(sacks[0].priorities) + rest
  }

  /**
    `total_group_badges`: the sum of the badge priorities. The badges are
    letters, so each adds 1 to 52.
   */
  function TotalBadges(groups: seq<Group>): (r: int)
    ensures (forall g | 0 <= g < |groups| :: IsLetter(groups[g].badge) && groups[g].badgeNo == Priority(groups[g].badge))
      ==> |groups| <= r <= 52 * |groups|
  {
    if groups == [] then 0
    else
      assert forall g | 0 <= g < |groups[1..]| :: groups[1..][g] == groups[g + 1];
      PriorityOfLetters(groups[0].badge);
      groups[0].badgeNo + TotalBadges(groups[1..])
  }

  /** An element of a non-empty set, the one the set sum below takes first. */
  ghost function Pick(S: set<char>): (c: char)
    requires S != {}
    ensures c in S
  {
    var c :| c in S; c
  }

  /** The sum of the priorities of a set of characters, each counted once. */
  ghost function SetSum(S: set<char>): int
    decreases S
  {
    if S == {} then 0 else Priority(Pick(S)) + SetSum(S - {Pick(S)})
  }

  /** The set sum may take any element first. */
  lemma {:induction false} SetSumRemove(S: set<char>, y: char)
    requires y in S
    ensures SetSum(S) == Priority(y) + SetSum(S - {y})
    decreases S
  {
    var x := Pick(S);
    if x != y {
      SetSumRemove(S - {x}, y);
      SetSumRemove(S - {y}, x);
      assert S - {x} - {y} == S - {y} - {x};
    }
  }

  function PrioritySum(xs: seq<char>): int {
    if xs == [] then 0 else Priority(xs[0]) + PrioritySum(xs[1..])
  }

  /** Summing a list of distinct characters is summing their set, whatever the order. */
  lemma {:induction false} ListSumIsSetSum(xs: seq<char>)
    requires NoDup(xs)
    ensures PrioritySum(xs) == SetSum(CharSet(xs))
  {
    if xs != [] {
      assert NoDup(xs[1..]) by {
        forall i, j | 0 <= i < j < |xs[1..]| ensures xs[1..][i] != xs[1..][j] {
          assert xs[1..][i] == xs[i + 1] && xs[1..][j] == xs[j + 1];
        }
      }
      ListSumIsSetSum(xs[1..]);
      assert CharSet(xs) - {xs[0]} == CharSet(xs[1..]) by {
        forall c | c in CharSet(xs[1..]) ensures c != xs[0] {
          var k :| 0 <= k < |xs[1..]| && xs[1..][k] == c;
          assert xs[k + 1] == c;
        }
        assert xs == [xs[0]] + xs[1..];
      }
      SetSumRemove(CharSet(xs), xs[0]);
    }
  }

  lemma {:induction false} PrioritiesSum(errors: seq<char>, priorities: seq<int>)
    requires |priorities| == |errors| && forall j :: 0 <= j < |errors| ==> priorities[j] == Priority(errors[j])
    ensures Sum(priorities) == PrioritySum(errors)
  {
    if errors != [] {
      PrioritiesSum(errors[1..], priorities[1..]);
    }
  }

  /** The errors of the stripped line `line`: the characters found in both halves. */
  function ErrorSet(line: string): set<char> {
    CharSet(line[..|line| / 2]) * CharSet(line[|line| / 2..])
  }

  /** Each line's shared characters, each counted once, summed over the lines. */
  ghost function SharedTotal(lines: seq<string>): int {
    if lines == [] then 0 else SetSum(ErrorSet(Strip(lines[0]))) + SharedTotal(lines[1..])
  }

  /**
   * Part 1 is the sum, over the lines, of the priorities of the characters
   * both compartments hold, each counted once however often it repeats and
   * whatever order the set was listed in.
   */
  lemma {:induction false} TotalErrorsMeaning(lines: seq<string>, sacks: seq<Sack>)
    requires |sacks| == |lines| && forall i :: 0 <= i < |lines| ==> Packed(Strip(lines[i]), sacks[i])
    ensures TotalErrors(sacks) == SharedTotal(lines)
  {
    forall i | 0 <= i < |lines| ensures Sum(sacks[i].priorities) == SetSum(ErrorSet(Strip(lines[i]))) {
      SackSum(Strip(lines[i]), sacks[i]);
    }
    TotalsMatch(lines, sacks);
  }

  /** One rucksack's error priorities sum to the set sum of its error set. */
  lemma SackSum(line: string, sack: Sack)
    requires Packed(line, sack)
    ensures Sum(sack.priorities) == SetSum(ErrorSet(line))
  {
    PrioritiesSum(sack.errors, sack.priorities);
    ListSumIsSetSum(sack.errors);
  }

  lemma {:induction false} TotalsMatch(lines: seq<string>, sacks: seq<Sack>)
    requires |sacks| == |lines|
    requires forall i :: 0 <= i < |lines| ==> Sum(sacks[i].priorities) == SetSum(ErrorSet(Strip(lines[i])))
    ensures TotalErrors(sacks) == SharedTotal(lines)
  {
    if lines != [] {
      assert forall i :: 0 <= i < |lines[1..]| ==> lines[1..][i] == lines[i + 1] && sacks[1..][i] == sacks[i + 1];
      TotalsMatch(lines[1..], sacks[1..]);
    }
  }

  /** A group whose lines share exactly one character has that character as its badge. */
  lemma BadgeDetermined(lines: seq<string>, g: nat, group: Group, c: char)
    requires 3 * g + 2 < |lines| && Badged(lines, g, group) && Shared(lines, g) == {c}
    ensures group.badge == c && group.badgeNo == Priority(c)
  {
  }
}
