/** Failure-carrying result types shared by every module of the model.
    `Result` stands for Rust's `Result<T, String>` / `Result<T, &'static str>`;
    `Option` for Rust's `Option<T>`. */
module Wrappers {

  datatype Option<+T> = None | Some(value: T)

  datatype Result<+T> = Ok(value: T) | Err(error: string) {
    predicate IsFailure() {
      Err?
    }

    function PropagateFailure<U>(): Result<U>
      requires Err?
    {
      Err(error)
    }

    function Extract(): T
      requires Ok?
    {
      value
    }
  }

  /** `parse` may be applied to every item the loop below reaches: each
      item up to and including the first failure is in its domain. */
  ghost predicate Reaches<S, T>(items: seq<S>, parse: S --> Result<T>)
    decreases |items|
  {
    |items| == 0 || (parse.requires(items[0]) && (parse(items[0]).Err? || Reaches(items[1..], parse)))
  }

  /** A parser defined everywhere reaches every list. */
  lemma {:induction false} TotalReaches<S, T>(items: seq<S>, parse: S -> Result<T>)
    ensures Reaches(items, parse)
    decreases |items|
  {
    if |items| > 0 {
      TotalReaches(items[1..], parse);
    }
  }

  /** A parser defined on every item reaches the end. */
  lemma {:induction false} DefinedReaches<S, T>(items: seq<S>, parse: S --> Result<T>)
    requires forall i :: 0 <= i < |items| ==> parse.requires(items[i])
    ensures Reaches(items, parse)
    decreases |items|
  {
    if |items| > 0 {
      assert forall i :: 1 <= i < |items| ==> items[i] == items[1..][i - 1];
      DefinedReaches(items[1..], parse);
    }
  }

  /** `parse` applied to every item in order, stopping at the first failure
      and returning its error: Rust's loop with `?`, or `collect` into a
      `Result<Vec<_>, _>`. */
  function MapUntilErr<S, T>(items: seq<S>, parse: S --> Result<T>): (r: Result<seq<T>>)
    requires Reaches(items, parse)
    ensures r.Ok? <==> forall i :: 0 <= i < |items| ==> parse.requires(items[i]) && parse(items[i]).Ok?
    ensures r.Ok? ==> |r.value| == |items|
    ensures r.Ok? ==> forall i :: 0 <= i < |items| ==> parse.requires(items[i]) && parse(items[i]) == Ok(r.value[i])
    decreases |items|
  {
    if |items| == 0 then Ok([])
    else
      match parse(items[0])
      case Err(e) => Err(e)
      case Ok(t) =>
        var rest := items[1..];
        assert forall i {:trigger items[i]} :: 1 <= i < |items| ==> items[i] == rest[i - 1];
        match MapUntilErr(rest, parse)
        case Err(e) => Err(e)
        case Ok(ts) =>
          var all := [t] + ts;
          assert forall i {:trigger all[i]} :: 1 <= i < |all| ==> all[i] == ts[i - 1];
          Ok(all)
  }

  /** A failing loop reports the error of the first item that fails, every
      item before it having parsed. */
  lemma {:induction false} MapUntilErrFails<S, T>(items: seq<S>, parse: S --> Result<T>)
    requires Reaches(items, parse) && MapUntilErr(items, parse).Err?
    ensures exists i :: 0 <= i < |items| && parse.requires(items[i]) && parse(items[i]) == Err(MapUntilErr(items, parse).error)
                        && forall j :: 0 <= j < i ==> parse.requires(items[j]) && parse(items[j]).Ok?
    decreases |items|
  {
    if parse(items[0]).Ok? {
      var rest := items[1..];
      MapUntilErrFails(rest, parse);
      var i :| 0 <= i < |rest| && parse.requires(rest[i]) && parse(rest[i]) == Err(MapUntilErr(rest, parse).error)
               && forall j :: 0 <= j < i ==> parse.requires(rest[j]) && parse(rest[j]).Ok?;
      assert items[i + 1] == rest[i];
      forall j | 0 <= j < i + 1
        ensures parse.requires(items[j]) && parse(items[j]).Ok?
      {
        if j > 0 {
          assert items[j] == rest[j - 1];
        }
      }
    }
  }

  /** When every item parses, the loop returns every parsed value, in order. */
  lemma MapUntilErrAll<S, T>(items: seq<S>, parse: S --> Result<T>, values: seq<T>)
    requires |values| == |items|
    requires forall i :: 0 <= i < |items| ==> parse.requires(items[i]) && parse(items[i]) == Ok(values[i])
    ensures Reaches(items, parse) && MapUntilErr(items, parse) == Ok(values)
  {
    DefinedReaches(items, parse);
    var r := MapUntilErr(items, parse);
    assert r.Ok?;
    assert r.value == values;
  }
}
