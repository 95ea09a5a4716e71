/** Option and Result, shared by every module of the model. */
module Common {

  datatype Option<T> = None | Some(value: T)

  /** An operation's outcome: a value, or the exception the source raises. */
  datatype Result<T, E> = Ok(value: T) | Err(error: E) {
    predicate IsFailure() { Err? }

    function PropagateFailure<U>(): Result<U, E>
      requires Err?
    {
      Err(error)
    }

    function Extract(): T
      requires Ok?
    {
      value
    }
  }

  /** `[f(x) for x in xs]` where `f` may raise: the first exception ends the comprehension. */
  function MapAll<A, B, E>(xs: seq<A>, f: A -> Result<B, E>): (r: Result<seq<B>, E>)
    ensures r.Ok? <==> forall i :: 0 <= i < |xs| ==> f(xs[i]).Ok?
    ensures r.Ok? ==> |r.value| == |xs| && forall i :: 0 <= i < |xs| ==> f(xs[i]) == Ok(r.value[i])
    ensures r.Err? ==> exists i :: 0 <= i < |xs| && f(xs[i]) == Err(r.error) &&
                         forall j :: 0 <= j < i ==> f(xs[j]).Ok?
  {
    if xs == [] then Ok([])
    else match f(xs[0])
      case Err(e) => Err(e)
      case Ok(y) =>
        var rest := MapAll(xs[1..], f);
        assert forall i :: 1 <= i < |xs| ==> xs[i] == xs[1..][i - 1];
        match rest
        case Err(e) => Err(e)
        case Ok(ys) => Ok([y] + ys)
  }

  /** A two-element comprehension over elements that do not raise. */
  lemma MapTwo<A, B, E>(x: A, y: A, f: A -> Result<B, E>, p: B, q: B)
    requires f(x) == Ok(p) && f(y) == Ok(q)
    ensures MapAll([x, y], f) == Ok([p, q])
  {
    var r := MapAll([x, y], f);
    assert f([x, y][0]).Ok? && f([x, y][1]).Ok?;
    assert r.value[0] == p && r.value[1] == q;
    assert r.value == [p, q];
  }

  /** Python's `sum` over a list of integers. */
  function Sum(xs: seq<int>): int {
    if xs == [] then 0 else xs[0] + Sum(xs[1..])
  }
}
