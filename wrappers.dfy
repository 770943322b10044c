/** Optional values and results with a failure, used for the dictionary keys the
    program may find absent and for the exceptions it may raise. */
module Wrappers {

  datatype Option<+T> = None | Some(value: T)

  /** Python's `d.get(key, default)`: the value when present, the default otherwise. */
  function GetOr<T>(o: Option<T>, default: T): T
  {
    match o
    case Some(v) => v
    case None => default
  }

  datatype Result<+T, +E> = Ok(value: T) | Err(error: E)

  /** Running two steps one after the other whose outputs are appended: the first
      failure wins, and the second step's result matters only when the first succeeded. */
  function Join<T, E>(a: Result<seq<T>, E>, b: Result<seq<T>, E>): (r: Result<seq<T>, E>)
    ensures r.Ok? <==> a.Ok? && b.Ok?
    ensures r.Ok? ==> r.value == a.value + b.value
    ensures a.Err? ==> r == a
    ensures a.Ok? && b.Err? ==> r == b
  {
    match a
    case Err(e) => Err(e)
    case Ok(x) =>
      match b
      case Err(e) => Err(e)
      case Ok(y) => Ok(x + y)
  }

  lemma JoinUnit<T, E>(a: Result<seq<T>, E>)
    ensures Join(Ok([]), a) == a
  {
    if a.Ok? {
      assert [] + a.value == a.value;
    }
  }

  lemma JoinAssociative<T, E>(a: Result<seq<T>, E>, b: Result<seq<T>, E>, c: Result<seq<T>, E>)
    ensures Join(Join(a, b), c) == Join(a, Join(b, c))
  {
    if a.Ok? && b.Ok? && c.Ok? {
      assert (a.value + b.value) + c.value == a.value + (b.value + c.value);
    }
  }
}
