/**
 * Rock paper scissors (day2.py).
 *
 * The strategy guide pairs an opponent letter A/B/C with a desired result
 * X/Y/Z.  The script decodes both through `mapping`, picks the move that
 * gives the desired result from `mapping` again, and scores each round as
 * the score of its outcome in `outcomes` plus the score of the move played.
 * The dictionaries are string-keyed, so every lookup may raise KeyError.
 */
module Rps {
  import opened Common
  import opened PyStr

  /** The exceptions the script can raise. */
  datatype Error = KeyError | IndexError

  /** `mapping`: letters to moves and results, and move + result to the move to play. */
  const Mapping: map<string, string> := map[
    "A" := "R", "B" := "P", "C" := "S",
    "X" := "LOSE", "Y" := "DRAW", "Z" := "WIN",
    "RLOSE" := "S", "PLOSE" := "R", "SLOSE" := "P",
    "RDRAW" := "R", "PDRAW" := "P", "SDRAW" := "S",
    "RWIN" := "P", "PWIN" := "S", "SWIN" := "R"]

  /** `scores`: the score of each move and of each result. */
  const Scores: map<string, int> := map[
    "R" := 1, "P" := 2, "S" := 3,
    "WIN" := 6, "LOSE" := 0, "DRAW" := 3]

  /** `outcomes`: opponent move then own move, to the result for the player. */
  const Outcomes: map<string, string> := map[
    "RS" := "LOSE", "SP" := "LOSE", "PR" := "LOSE",
    "RR" := "DRAW", "PP" := "DRAW", "SS" := "DRAW",
    "SR" := "WIN", "PS" := "WIN", "RP" := "WIN"]

  /** `strategy` inside `get_score_strategy`. */
  const Strategy: map<string, string> := map["R" := "P", "P" := "R", "S" := "S"]

  predicate IsMove(m: string) {
    m == "R" || m == "P" || m == "S"
  }

  predicate IsResult(d: string) {
    d == "LOSE" || d == "DRAW" || d == "WIN"
  }

  /** `m[k]`, or KeyError. */
  function Lookup<V>(m: map<string, V>, k: string): (r: Result<V, Error>)
    ensures r.Ok? <==> k in m
    ensures r.Ok? ==> r.value == m[k]
  {
    if k in m then Ok(m[k]) else Err(KeyError)
  }

  /** A one-letter move is a key of `scores`, worth 1 to 3. */
  lemma MoveKey(c: char)
    requires c == 'R' || c == 'P' || c == 'S'
    ensures IsMove([c]) && [c] in Scores && 1 <= Scores[[c]] <= 3
  {
    if c == 'R' {
      assert [c] == "R";
    } else if c == 'P' {
      assert [c] == "P";
    } else {
      assert [c] == "S";
    }
  }

  /** A key of `outcomes` is two move letters, and its result is a key of `scores`. */
  lemma OutcomeKeys(k: string)
    requires k in Outcomes
    ensures |k| == 2 && IsMove([k[0]]) && IsMove([k[1]]) && [k[1]] in Scores && 1 <= Scores[[k[1]]] <= 3
    ensures IsResult(Outcomes[k]) && Outcomes[k] in Scores && Scores[Outcomes[k]] in {0, 3, 6}
  {
    MoveKey(k[0]);
    MoveKey(k[1]);
  }

  // ---------------------------------------------------------------------
  // get_score and get_score_strategy

  /** `get_score(outcome)`: the result's score plus the score of the move played. */
  function GetScore(outcome: string): (r: Result<int, Error>)
    ensures r.Ok? <==> outcome in Outcomes
    ensures r.Ok? ==> 1 <= r.value <= 9
  {
    if outcome !in Outcomes then Err(KeyError)
    else
      OutcomeKeys(outcome);
      var result := Outcomes[outcome];
      if result !in Scores then Err(KeyError)
      else if |outcome| < 2 then Err(IndexError)
      else if [outcome[1]] !in Scores then Err(KeyError)
      else Ok(Scores[result] + Scores[[outcome[1]]])
  }

  /** The score of a round is the result's score plus the own move's score. */
  lemma GetScoreParts(o: string, m: string)
    requires IsMove(o) && IsMove(m)
    ensures o + m in Outcomes
    ensures GetScore(o + m) == Ok(Scores[Outcomes[o + m]] + Scores[m])
  {
    OutcomesAntisymmetric(o, m);
    var k := o + m;
    assert [k[1]] == m;
  }

  /** `get_score_strategy(original_outcome)`: keep the opponent's move, answer with `strategy`. */
  function GetScoreStrategy(original: string): (r: Result<(string, int), Error>)
    ensures r.Ok? <==> |original| >= 1 && [original[0]] in Strategy
    ensures r.Ok? ==> r.value.0 == [original[0]] + Strategy[[original[0]]]
    ensures r.Ok? ==> 1 <= r.value.1 <= 9
  {
    if |original| < 1 then Err(IndexError)
    else
      var answer :- Lookup(Strategy, [original[0]]);
      var outcome := [original[0]] + answer;
      assert IsMove([original[0]]) && IsMove(answer);
      // scoring a move answered with a move cannot raise
      GetScoreParts([original[0]], answer);
      Ok((outcome, GetScore(outcome).value))
  }

  /** The alternative strategy wins against rock, loses against paper and draws against scissors. */
  lemma StrategyResults()
    ensures GetScoreStrategy("R") == Ok(("RP", 8))
    ensures GetScoreStrategy("P") == Ok(("PR", 1))
    ensures GetScoreStrategy("S") == Ok(("SS", 6))
  {
    assert ["R"[0]] == "R" && "R" + "P" == "RP";
    assert ["P"[0]] == "P" && "P" + "R" == "PR";
    assert ["S"[0]] == "S" && "S" + "S" == "SS";
    GetScoreParts("R", "P");
    GetScoreParts("P", "R");
    GetScoreParts("S", "S");
  }

  // ---------------------------------------------------------------------
  // The tables against each other

  /** The move `mapping` picks for opponent move `o` and result `d` does produce `d`. */
  lemma ChosenMoveGivesResult(o: string, d: string)
    requires IsMove(o) && IsResult(d)
    ensures o + d in Mapping && IsMove(Mapping[o + d])
    ensures o + Mapping[o + d] in Outcomes && Outcomes[o + Mapping[o + d]] == d
  {
    if o == "R" {
      if d == "LOSE" {
        assert o + d == "RLOSE" && o + "S" == "RS";
      } else if d == "DRAW" {
        assert o + d == "RDRAW" && o + "R" == "RR";
      } else {
        assert o + d == "RWIN" && o + "P" == "RP";
      }
    } else if o == "P" {
      if d == "LOSE" {
        assert o + d == "PLOSE" && o + "R" == "PR";
      } else if d == "DRAW" {
        assert o + d == "PDRAW" && o + "P" == "PP";
      } else {
        assert o + d == "PWIN" && o + "S" == "PS";
      }
    } else {
      if d == "LOSE" {
        assert o + d == "SLOSE" && o + "P" == "SP";
      } else if d == "DRAW" {
        assert o + d == "SDRAW" && o + "S" == "SS";
      } else {
        assert o + d == "SWIN" && o + "R" == "SR";
      }
    }
  }

  /** Equal moves draw, and of two distinct moves one wins exactly when the other loses. */
  lemma OutcomesAntisymmetric(a: string, b: string)
    requires IsMove(a) && IsMove(b)
    ensures a + b in Outcomes && b + a in Outcomes
    ensures a == b ==> Outcomes[a + b] == "DRAW"
    ensures a != b ==> (Outcomes[a + b] == "WIN" <==> Outcomes[b + a] == "LOSE")
    ensures a != b ==> Outcomes[a + b] != "DRAW"
  {
    if a == "R" {
      if b == "R" {
        assert a + b == "RR" && b + a == "RR";
      } else if b == "P" {
        assert a + b == "RP" && b + a == "PR";
      } else {
        assert a + b == "RS" && b + a == "SR";
      }
    } else if a == "P" {
      if b == "R" {
        assert a + b == "PR" && b + a == "RP";
      } else if b == "P" {
        assert a + b == "PP" && b + a == "PP";
      } else {
        assert a + b == "PS" && b + a == "SP";
      }
    } else {
      if b == "R" {
        assert a + b == "SR" && b + a == "RS";
      } else if b == "P" {
        assert a + b == "SP" && b + a == "PS";
      } else {
        assert a + b == "SS" && b + a == "SS";
      }
    }
  }

  // ---------------------------------------------------------------------
  // The script: decode, choose, score, sum

  /**
    Line 69: `mapping[w0] + mapping[w1]` for the words of one game line. The
    first word is looked up before the second is indexed, so a line whose
    one word is no key raises KeyError, not IndexError.
   */
  function Decode(game: string): (r: Result<string, Error>)
    ensures var w := SplitWs(game);
      r.Ok? <==> |w| >= 2 && w[0] in Mapping && w[1] in Mapping
    ensures var w := SplitWs(game);
      r == Err(IndexError) <==> |w| == 0 || (|w| == 1 && w[0] in Mapping)
    ensures var w := SplitWs(game);
      r.Ok? ==> r.value == Mapping[w[0]] + Mapping[w[1]]
  {
    var words := SplitWs(game);
    if |words| < 1 then Err(IndexError)
    else
      var move :- Lookup(Mapping, words[0]);
      if |words| < 2 then Err(IndexError)
      else
        var result :- Lookup(Mapping, words[1]);
        Ok(move + result)
  }

  /** Line 70: `game[0] + mapping[game]`: the opponent's move, then the move to play. */
  function Choose(game: string): (r: Result<string, Error>)
    ensures r == Err(IndexError) <==> game == []
    ensures r.Ok? <==> game in Mapping
    ensures r.Ok? ==> |r.value| == 1 + |Mapping[game]| && r.value[0] == game[0] && r.value[1..] == Mapping[game]
  {
    if |game| < 1 then Err(IndexError)
    else
      var move :- Lookup(Mapping, game);
      Ok([game[0]] + move)
  }

  /**
    The whole input file to `total_score`. Every round scores between 1 and
    9, so a total lies between one and nine points per line.
   */
  function TotalScore(data: string): (r: Result<int, Error>)
    ensures r.Ok? ==> var n := |Split(Strip(data), "\n")|; n <= r.value <= 9 * n
  {
    var games := Split(Strip(data), "\n");
    var decoded :- MapAll(games, Decode);
    var chosen :- MapAll(decoded, Choose);
    var scores :- MapAll(chosen, GetScore);
    SumBounds(scores);
    Ok(Sum(scores))
  }

  lemma {:induction false} SumBounds(xs: seq<int>)
    requires forall i :: 0 <= i < |xs| ==> 1 <= xs[i] <= 9
    ensures |xs| <= Sum(xs) <= 9 * |xs|
  {
    if xs != [] {
      assert forall i :: 0 <= i < |xs[1..]| ==> xs[1..][i] == xs[i + 1];
      SumBounds(xs[1..]);
    }
  }

  /** The move an opponent letter stands for. */
  function OpponentMove(a: char): string {
    if a == 'A' then "R" else if a == 'B' then "P" else "S"
  }

  /** The result a second-column letter asks for. */
  function Desired(x: char): string {
    if x == 'X' then "LOSE" else if x == 'Y' then "DRAW" else "WIN"
  }

  /** `"A Y".split()` is `["A", "Y"]`. */
  lemma SplitGameLine(a: char, x: char)
    requires !IsSpace(a) && !IsSpace(x)
    ensures SplitWs([a, ' ', x]) == [[a], [x]]
  {
    var s := [a, ' ', x];
    var none: string := [];
    assert SplitWs(none) == [];
    assert Word([x]) == [x] by {
      assert [x][1..] == none;
    }
    assert [x][1..] == none;
    assert SplitWs([x]) == [[x]];
    assert LStrip([' ', x]) == [x] by {
      assert [' ', x][1..] == [x];
    }
    assert SplitWs([' ', x]) == [[x]];
    assert LStrip(s) == s;
    assert Word(s) == [a] by {
      assert s[1..][0] == ' ';
    }
    assert s[1..] == [' ', x];
    assert SplitWs(s) == [[a]] + [[x]];
  }

  /**
   * A guide line `a x` is played as the opponent's move followed by the
   * move that gives the desired result, and scores that result's score plus
   * the move's score.
   */
  lemma RoundOf(a: char, x: char)
    requires a in "ABC" && x in "XYZ"
    ensures var o, d := OpponentMove(a), Desired(x);
      && Decode([a, ' ', x]) == Ok(o + d)
      && Choose(o + d).Ok?
      && var g := Choose(o + d).value;
         && |g| == 2 && g[..1] == o
         && g in Outcomes && Outcomes[g] == d
         && d in Scores && g[1..] in Scores
         && GetScore(g) == Ok(Scores[d] + Scores[g[1..]])
  {
    var o, d := OpponentMove(a), Desired(x);
    SplitGameLine(a, x);
    assert [a] in Mapping && Mapping[[a]] == o;
    assert [x] in Mapping && Mapping[[x]] == d;
    ChosenMoveGivesResult(o, d);
    var m := Mapping[o + d];
    assert (o + d)[0] == o[0] && [o[0]] == o;
    assert Choose(o + d) == Ok(o + m);
    GetScoreParts(o, m);
    assert (o + m)[..1] == o && (o + m)[1..] == m;
  }
}
