/**
 * Calorie counting (day1.py).
 *
 * The input lists the calories each elf carries, one number per line, with
 * a blank line between elves.  The script totals each elf's numbers, reports
 * the largest total, then sorts the totals in descending order and reports
 * the sum of the first three.
 */
module Calories {
  import opened Common
  import opened PyStr

  /** The exception the script can raise: `int()` on something that is not a number. */
  datatype Error = ValueError

  // ---------------------------------------------------------------------
  // Reading the totals

  /** `tuple(map(int, group.split()))`. */
  function GroupValues(group: string): (r: Result<seq<int>, Error>)
    ensures var words := SplitWs(group);
      && (r.Ok? <==> forall i :: 0 <= i < |words| ==> ParseInt(words[i]).Some?)
      && (r.Ok? ==> |r.value| == |words| && forall i :: 0 <= i < |words| ==> ParseInt(words[i]) == Some(r.value[i]))
  {
    var words := SplitWs(group);
    var r := MapAll(words, Int);
    assert forall i :: 0 <= i < |words| ==> (Int(words[i]).Ok? <==> ParseInt(words[i]).Some?);
    assert r.Ok? ==> forall i :: 0 <= i < |words| ==> ParseInt(words[i]) == Some(r.value[i]) by {
      if r.Ok? {
        forall i | 0 <= i < |words| ensures ParseInt(words[i]) == Some(r.value[i]) {
          assert Int(words[i]) == Ok(r.value[i]);
        }
      }
    }
    r
  }

  /** `int(word)`. */
  function Int(word: string): (r: Result<int, Error>)
    ensures r.Ok? <==> ParseInt(word).Some?
    ensures r.Ok? ==> r.value == ParseInt(word).value
  {
    IntOr(word, ValueError)
  }

  /** The groups of the file: its text between blank lines. */
  function Groups(data: string): (r: seq<string>)
    ensures |r| >= 1
  {
    Split(data, "\n\n")
  }

  /** `elf_total_calories`: each group converted, then summed. */
  function Totals(data: string): (r: Result<seq<int>, Error>)
    ensures r.Ok? ==> |r.value| == |Groups(data)|
  {
    var values :- MapAll(Groups(data), GroupValues);
    Ok(seq(|values|, i requires 0 <= i < |values| => Sum(values[i])))
  }

  /** The groups join back to the file with a blank line between each two, and none holds a blank line. */
  lemma GroupsOfData(data: string)
    ensures Join(Groups(data), "\n\n") == data
    ensures forall i :: 0 <= i < |Groups(data)| ==> !Occurs(Groups(data)[i], "\n\n")
  {
    SplitPiecesLackSep(data, "\n\n");
  }

  /** Each total is the sum of the numbers of its group, and a file with a bad number raises. */
  lemma TotalsMeaning(data: string)
    ensures Totals(data).Ok? <==> forall i :: 0 <= i < |Groups(data)| ==> GroupValues(Groups(data)[i]).Ok?
    ensures Totals(data).Ok? ==> forall i :: 0 <= i < |Groups(data)| ==>
      Totals(data).value[i] == Sum(GroupValues(Groups(data)[i]).value)
  {
  }

  // ---------------------------------------------------------------------
  // Part 1: the largest total

  /** `max(xs)`. */
  function Max(xs: seq<int>): (m: int)
    requires xs != []
    ensures m in xs
    ensures forall i :: 0 <= i < |xs| ==> xs[i] <= m
  {
    if |xs| == 1 then xs[0]
    else
      var rest := Max(xs[1..]);
      assert forall i :: 1 <= i < |xs| ==> xs[i] == xs[1..][i - 1];
      if xs[0] >= rest then xs[0] else rest
  }

  // ---------------------------------------------------------------------
  // Part 2: the three largest totals

  predicate Descending(xs: seq<int>) {
    forall i, j :: 0 <= i < j < |xs| ==> xs[i] >= xs[j]
  }

  /** `x` put into a list before the first element it is at least. */
  function Insert(x: int, xs: seq<int>): (r: seq<int>)
    ensures |r| == |xs| + 1
    ensures multiset(r) == multiset(xs) + multiset{x}
  {
    if xs == [] || x >= xs[0] then
      [x] + xs
    else
      assert xs == [xs[0]] + xs[1..];
      [xs[0]] + Insert(x, xs[1..])
  }

  /** Into a descending list, `Insert` keeps it descending and adds exactly `x`. */
  lemma {:induction false} InsertSorted(x: int, xs: seq<int>)
    requires Descending(xs)
    ensures Descending(Insert(x, xs))
    ensures Insert(x, xs)[0] == x || (xs != [] && Insert(x, xs)[0] == xs[0])
  {
    if xs != [] && x < xs[0] {
      assert xs == [xs[0]] + xs[1..];
      DescendingTail(xs);
      var rest := Insert(x, xs[1..]);
      InsertSorted(x, xs[1..]);
      assert rest[0] == x || rest[0] == xs[1];
      InsertHead(xs[0], rest, rest[0]);
    }
  }

  lemma DescendingTail(xs: seq<int>)
    requires Descending(xs) && xs != []
    ensures Descending(xs[1..])
  {
    forall i, j | 0 <= i < j < |xs| - 1 ensures xs[1..][i] >= xs[1..][j] {
      assert xs[1..][i] == xs[i + 1] && xs[1..][j] == xs[j + 1];
    }
  }

  /** A descending list stays descending under a head at least its first element. */
  lemma InsertHead(h: int, rest: seq<int>, first: int)
    requires Descending(rest) && rest != [] && rest[0] == first && h >= first
    ensures Descending([h] + rest)
  {
    forall i, j | 0 <= i < j < |[h] + rest| ensures ([h] + rest)[i] >= ([h] + rest)[j] {
      if i == 0 {
        assert ([h] + rest)[j] == rest[j - 1] <= rest[0];
      } else {
        assert ([h] + rest)[i] == rest[i - 1] && ([h] + rest)[j] == rest[j - 1];
      }
    }
  }

  /** `xs.sort(reverse=True)`: the same totals, largest first. */
  function SortDescending(xs: seq<int>): (r: seq<int>)
    ensures Descending(r)
    ensures multiset(r) == multiset(xs)
  {
    if xs == [] then []
    else
      assert xs == [xs[0]] + xs[1..];
      var rest := SortDescending(xs[1..]);
      InsertSorted(xs[0], rest);
      Insert(xs[0], rest)
  }

  function Min(a: int, b: int): int {
    if a <= b then a else b
  }

  /** `top3`: the first three sorted totals, or all of them when there are fewer. */
  function Top3(totals: seq<int>): (r: seq<int>)
    ensures |r| == Min(3, |totals|)
  {
    var sorted := SortDescending(totals);
    assert |sorted| == |multiset(sorted)| == |totals|;
    sorted[..Min(3, |totals|)]
  }

  /** The first sorted total is the largest, and so is the first of `top3`. */
  lemma TopIsMax(totals: seq<int>)
    requires totals != []
    ensures Top3(totals)[0] == Max(totals)
  {
    var sorted := SortDescending(totals);
    assert |sorted| == |multiset(sorted)| == |totals|;
    assert sorted[0] in multiset(totals);
    var k :| 0 <= k < |totals| && totals[k] == Max(totals);
    assert totals[k] in multiset(sorted);
    var j :| 0 <= j < |sorted| && sorted[j] == totals[k];
  }

  /**
   * `top3` is drawn from the totals, and no total left out of it is larger
   * than any total in it.
   */
  lemma Top3Largest(totals: seq<int>)
    ensures multiset(Top3(totals)) <= multiset(totals)
    ensures var sorted := SortDescending(totals);
      forall i, j :: 0 <= i < |Top3(totals)| <= j < |sorted| ==> Top3(totals)[i] >= sorted[j]
  {
    var sorted := SortDescending(totals);
    assert |sorted| == |multiset(sorted)| == |totals|;
    var n := Min(3, |totals|);
    assert sorted == sorted[..n] + sorted[n..];
  }

  /** Both answers of the script for the file `data`. */
  function Answers(data: string): (r: Result<(int, int), Error>)
    ensures r.Ok? <==> Totals(data).Ok?
    ensures r.Ok? ==> r.value.0 in Totals(data).value
    ensures r.Ok? ==> forall t :: t in Totals(data).value ==> t <= r.value.0
  {
    var totals :- Totals(data);
    Ok((Max(totals), Sum(Top3(totals))))
  }
}
