/** What the modules share: two failure-compatible datatypes, a minimum, and two facts about sequences. */
module Wrappers {

  datatype Option<+T> = None | Some(value: T)

  datatype Result<+R, +E> = Success(value: R) | Failure(error: E)

  function Min(a: nat, b: nat): nat { if a < b then a else b }

  lemma PushFirst<T>(front: seq<T>, x: T, rest: seq<T>)
    ensures front + [x] + rest == front + ([x] + rest)
    ensures front + ([] + rest) == front + rest
  {
  }

  lemma PushLast<T>(front: seq<T>, mid: seq<T>, x: T)
    ensures front + (mid + [x]) == front + mid + [x]
  {
  }
}
