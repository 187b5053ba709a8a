/** What the other modules share: Some/None and success/failure results, and distinctness. */
module Wrappers {

  datatype Option<+T> = None | Some(value: T) {
    function GetOr(default: T): T {
      if Some? then value else default
    }
  }

  predicate IsDistinct<T(==)>(items: seq<T>) {
    forall i, j :: 0 <= i < j < |items| ==> items[i] != items[j]
  }

  datatype Result<+T, +E> = Success(value: T) | Failure(error: E)
}
